/**
 * Operations on Sia accounts, as they interleave: finding or connecting the account's client,
 * uploading under the account's read lock, and pruning when no upload is in flight.
 */
module SiaAccounts {
  import opened Common

  type Account = string
  type Lock = nat
  type Client = nat
  type Op = nat

  /** Where an operation stands; the parts of account() under the mutex are one step each. */
  datatype Pc =
    | Starting
    | HasCredentials(account: Account)
    | Connecting(account: Account, lock: Lock)
    | Connected(account: Account, lock: Lock, client: Client)
    | Ready(account: Account, lock: Lock, client: Client)
    | Uploading(account: Account, lock: Lock, client: Client, pinned: bool)
    | Pruning(account: Account, lock: Lock, client: Client)
    | Finished

  datatype State = State(
    locks: map<Account, Lock>,
    clients: map<Account, Client>,
    readers: map<Lock, set<Op>>,
    writers: map<Lock, Op>,
    ops: map<Op, Pc>,
    nextLock: Lock,
    nextClient: Client,
    closed: set<Client>)

  const INITIAL := State(map[], map[], map[], map[], map[], 0, 0, {})

  /** Credentials, connections, uploads and pins end as the event says. */
  datatype Event =
    | Begin(op: Op)
    | Credentials(op: Op, account: Account)
    | Lookup(op: Op)
    | Connect(op: Op, ok: bool)
    | Register(op: Op)
    | StartUpload(op: Op)
    | Pin(op: Op)
    | EndUpload(op: Op)
    | TryPrune(op: Op)
    | EndPrune(op: Op)

  function ReadersOf(s: State, lock: Lock): set<Op> {
    if lock in s.readers then s.readers[lock] else {}
  }

  predicate Enabled(s: State, e: Event) {
    if e.Begin? then e.op !in s.ops
    else
      && e.op in s.ops
      && var pc := s.ops[e.op];
         match e
         case Begin(_) => false
         case Credentials(_, _) => pc.Starting?
         case Lookup(_) => pc.HasCredentials?
         case Connect(_, _) => pc.Connecting?
         case Register(_) => pc.Connected?
         // RLock waits while a writer holds the lock.
         case StartUpload(_) => pc.Ready? && pc.lock !in s.writers
         case Pin(_) => pc.Uploading? && !pc.pinned
         case EndUpload(_) => pc.Uploading?
         case TryPrune(_) => pc.Ready?
         case EndPrune(_) => pc.Pruning?
  }

  function Move(s: State, op: Op, pc: Pc): State {
    s.(ops := s.ops[op := pc])
  }

  /** The section that finds or makes the lock and looks for a client. */
  function AfterLookup(s: State, op: Op, account: Account): State {
    var t := if account in s.locks then s else s.(locks := s.locks[account := s.nextLock], nextLock := s.nextLock + 1);
    var lock := t.locks[account];
    Move(t, op, if account in t.clients then Ready(account, lock, t.clients[account]) else Connecting(account, lock))
  }

  /** The section that keeps the new client, or closes it when another was kept meanwhile. */
  function AfterRegister(s: State, op: Op, account: Account, lock: Lock, client: Client): State {
    if account in s.clients then
      Move(s.(closed := s.closed + {client}), op, Ready(account, lock, s.clients[account]))
    else
      Move(s.(clients := s.clients[account := client]), op, Ready(account, lock, client))
  }

  function After(s: State, e: Event): State
    requires Enabled(s, e)
  {
    if e.Begin? then Move(s, e.op, Starting)
    else
      var pc := s.ops[e.op];
      match e
      case Begin(op) => s
      case Credentials(op, account) => Move(s, op, HasCredentials(account))
      case Lookup(op) => AfterLookup(s, op, pc.account)
      case Connect(op, ok) =>
        if ok then Move(s.(nextClient := s.nextClient + 1), op, Connected(pc.account, pc.lock, s.nextClient))
        else Move(s, op, Finished)
      case Register(op) => AfterRegister(s, op, pc.account, pc.lock, pc.client)
      case StartUpload(op) =>
        Move(s.(readers := s.readers[pc.lock := ReadersOf(s, pc.lock) + {op}]), op,
             Uploading(pc.account, pc.lock, pc.client, false))
      case Pin(op) => Move(s, op, pc.(pinned := true))
      case EndUpload(op) => Move(s.(readers := s.readers[pc.lock := ReadersOf(s, pc.lock) - {op}]), op, Finished)
      case TryPrune(op) =>
        if pc.lock in s.writers || ReadersOf(s, pc.lock) != {} then Move(s, op, Finished)
        else Move(s.(writers := s.writers[pc.lock := op]), op, Pruning(pc.account, pc.lock, pc.client))
      case EndPrune(op) => Move(s.(writers := s.writers - {pc.lock}), op, Finished)
  }

  // ---------------------------------------------------------------- invariants

  predicate Holding(pc: Pc) {
    pc.Ready? || pc.Uploading? || pc.Pruning?
  }

  /** Whoever is past the lookup has the account's one lock; whoever holds a client has the one that was kept. */
  ghost predicate Shared(s: State) {
    && (forall op :: op in s.ops && (s.ops[op].Connecting? || s.ops[op].Connected? || Holding(s.ops[op])) ==>
          s.ops[op].account in s.locks && s.locks[s.ops[op].account] == s.ops[op].lock)
    && (forall op :: op in s.ops && Holding(s.ops[op]) ==>
          s.ops[op].account in s.clients && s.clients[s.ops[op].account] == s.ops[op].client)
  }

  /** Accounts have locks of their own. */
  ghost predicate LocksDiffer(s: State) {
    && (forall a :: a in s.locks ==> s.locks[a] < s.nextLock)
    && (forall a, b :: a in s.locks && b in s.locks && s.locks[a] == s.locks[b] ==> a == b)
  }

  /** The lock's readers are the uploads in flight, its writer the prune; there are never both. */
  ghost predicate Exclusive(s: State) {
    && (forall op, lock :: op in ReadersOf(s, lock) <==> op in s.ops && s.ops[op].Uploading? && s.ops[op].lock == lock)
    && (forall op :: op in s.ops && s.ops[op].Pruning? ==> s.ops[op].lock in s.writers && s.writers[s.ops[op].lock] == op)
    && (forall lock :: lock in s.writers ==>
          ReadersOf(s, lock) == {} && s.writers[lock] in s.ops && s.ops[s.writers[lock]].Pruning? && s.ops[s.writers[lock]].lock == lock)
  }

  /** Where a client that was connected is: kept, about to be registered, or closed. */
  ghost predicate Kept(clients: map<Account, Client>, c: Client) {
    exists a :: a in clients && clients[a] == c
  }

  ghost predicate Pending(ops: map<Op, Pc>, c: Client) {
    exists op :: op in ops && ops[op].Connected? && ops[op].client == c
  }

  ghost predicate Accounted(s: State) {
    && (forall c :: 0 <= c < s.nextClient ==> Kept(s.clients, c) || Pending(s.ops, c) || c in s.closed)
    && (forall a :: a in s.clients ==> s.clients[a] < s.nextClient && s.clients[a] !in s.closed)
    && (forall op :: op in s.ops && s.ops[op].Connected? ==>
          s.ops[op].client < s.nextClient && s.ops[op].client !in s.closed && !Kept(s.clients, s.ops[op].client))
    && (forall a, b :: a in s.clients && b in s.clients && s.clients[a] == s.clients[b] ==> a == b)
    && (forall o, p :: o in s.ops && p in s.ops && s.ops[o].Connected? && s.ops[p].Connected? && s.ops[o].client == s.ops[p].client ==> o == p)
    && (forall c :: c in s.closed ==> c < s.nextClient)
  }

  ghost predicate Invariant(s: State) {
    Shared(s) && LocksDiffer(s) && Exclusive(s) && Accounted(s)
  }

  // ---------------------------------------------------------------- every step keeps them

  ghost predicate HasShare(s: State, pc: Pc) {
    && ((pc.Connecting? || pc.Connected? || Holding(pc)) ==> pc.account in s.locks && s.locks[pc.account] == pc.lock)
    && (Holding(pc) ==> pc.account in s.clients && s.clients[pc.account] == pc.client)
  }

  lemma MoveKeepsShared(s: State, op: Op, pc: Pc)
    requires Shared(s) && HasShare(s, pc)
    ensures Shared(Move(s, op, pc))
  {
  }

  lemma NewLockKeepsShared(s: State, account: Account)
    requires Shared(s) && account !in s.locks
    ensures Shared(s.(locks := s.locks[account := s.nextLock], nextLock := s.nextLock + 1))
  {
  }

  lemma NewClientKeepsShared(s: State, account: Account, client: Client)
    requires Shared(s) && account !in s.clients
    ensures Shared(s.(clients := s.clients[account := client]))
  {
  }

  /** Only ops, locks and clients matter for sharing. */
  lemma SharedDepends(s: State, t: State)
    requires Shared(s) && t.ops == s.ops && t.locks == s.locks && t.clients == s.clients
    ensures Shared(t)
  {
  }

  lemma LookupKeepsShared(s: State, op: Op, account: Account)
    requires Shared(s)
    ensures Shared(AfterLookup(s, op, account))
  {
    if account !in s.locks { NewLockKeepsShared(s, account); }
    var t := if account in s.locks then s else s.(locks := s.locks[account := s.nextLock], nextLock := s.nextLock + 1);
    var lock := t.locks[account];
    MoveKeepsShared(t, op, if account in t.clients then Ready(account, lock, t.clients[account]) else Connecting(account, lock));
  }

  lemma RegisterKeepsShared(s: State, op: Op, pc: Pc)
    requires Shared(s) && pc.Connected? && HasShare(s, pc)
    ensures Shared(AfterRegister(s, op, pc.account, pc.lock, pc.client))
  {
    if pc.account in s.clients {
      SharedDepends(s, s.(closed := s.closed + {pc.client}));
      MoveKeepsShared(s.(closed := s.closed + {pc.client}), op, Ready(pc.account, pc.lock, s.clients[pc.account]));
    } else {
      NewClientKeepsShared(s, pc.account, pc.client);
      MoveKeepsShared(s.(clients := s.clients[pc.account := pc.client]), op, Ready(pc.account, pc.lock, pc.client));
    }
  }

  /** Every other step only moves the operation, and changes nothing that sharing depends on. */
  lemma SharedKept(s: State, e: Event)
    requires Shared(s) && Enabled(s, e)
    ensures Shared(After(s, e))
  {
    var t := After(s, e);
    if e.Lookup? {
      LookupKeepsShared(s, e.op, s.ops[e.op].account);
    } else if e.Register? {
      assert HasShare(s, s.ops[e.op]);
      RegisterKeepsShared(s, e.op, s.ops[e.op]);
    } else {
      assert e.op in s.ops ==> HasShare(s, s.ops[e.op]);
      assert t.locks == s.locks && t.clients == s.clients && t.ops == s.ops[e.op := t.ops[e.op]];
      assert HasShare(s, t.ops[e.op]);
      MoveKeepsShared(s, e.op, t.ops[e.op]);
      SharedDepends(Move(s, e.op, t.ops[e.op]), t);
    }
  }

  lemma LocksKept(s: State, e: Event)
    requires LocksDiffer(s) && Enabled(s, e)
    ensures LocksDiffer(After(s, e))
  {
    var t := After(s, e);
    if !e.Lookup? {
      assert t.locks == s.locks && t.nextLock == s.nextLock;
    }
  }

  // ---------------------------------------------------------------- locks

  predicate Locking(pc: Pc) {
    pc.Uploading? || pc.Pruning?
  }

  lemma MoveKeepsExclusive(s: State, t: State, op: Op)
    requires Exclusive(s) && t.readers == s.readers && t.writers == s.writers
    requires op in t.ops && t.ops == s.ops[op := t.ops[op]]
    requires !Locking(t.ops[op]) && (op in s.ops ==> !Locking(s.ops[op]))
    ensures Exclusive(t)
  {
    assert forall lock :: ReadersOf(t, lock) == ReadersOf(s, lock);
  }

  lemma StartUploadKeepsExclusive(s: State, op: Op)
    requires Exclusive(s) && Enabled(s, StartUpload(op))
    ensures Exclusive(After(s, StartUpload(op)))
  {
    var t, lock := After(s, StartUpload(op)), s.ops[op].lock;
    assert forall l :: ReadersOf(t, l) == if l == lock then ReadersOf(s, l) + {op} else ReadersOf(s, l);
  }

  lemma PinKeepsExclusive(s: State, op: Op)
    requires Exclusive(s) && Enabled(s, Pin(op))
    ensures Exclusive(After(s, Pin(op)))
  {
    var t := After(s, Pin(op));
    assert forall l :: ReadersOf(t, l) == ReadersOf(s, l);
  }

  lemma EndUploadKeepsExclusive(s: State, op: Op)
    requires Exclusive(s) && Enabled(s, EndUpload(op))
    ensures Exclusive(After(s, EndUpload(op)))
  {
    var t, lock := After(s, EndUpload(op)), s.ops[op].lock;
    assert forall l :: ReadersOf(t, l) == if l == lock then ReadersOf(s, l) - {op} else ReadersOf(s, l);
  }

  lemma PruneKeepsExclusive(s: State, op: Op)
    requires Exclusive(s) && Enabled(s, TryPrune(op))
    ensures Exclusive(After(s, TryPrune(op)))
  {
    var t, lock := After(s, TryPrune(op)), s.ops[op].lock;
    assert t.readers == s.readers && forall l :: ReadersOf(t, l) == ReadersOf(s, l);
    if lock in s.writers || ReadersOf(s, lock) != {} {
      MoveKeepsExclusive(s, t, op);
    }
  }

  lemma EndPruneKeepsExclusive(s: State, op: Op)
    requires Exclusive(s) && Enabled(s, EndPrune(op))
    ensures Exclusive(After(s, EndPrune(op)))
  {
    var t, lock := After(s, EndPrune(op)), s.ops[op].lock;
    assert forall l :: ReadersOf(t, l) == ReadersOf(s, l);
    assert s.writers[lock] == op;
  }

  lemma ExclusiveKept(s: State, e: Event)
    requires Exclusive(s) && Enabled(s, e)
    ensures Exclusive(After(s, e))
  {
    match e
    case StartUpload(op) => StartUploadKeepsExclusive(s, op);
    case Pin(op) => PinKeepsExclusive(s, op);
    case EndUpload(op) => EndUploadKeepsExclusive(s, op);
    case TryPrune(op) => PruneKeepsExclusive(s, op);
    case EndPrune(op) => EndPruneKeepsExclusive(s, op);
    case _ =>
      var t := After(s, e);
      assert t.ops == s.ops[e.op := t.ops[e.op]];
      MoveKeepsExclusive(s, t, e.op);
  }

  // ---------------------------------------------------------------- clients

  lemma MoveKeepsAccounted(s: State, t: State, op: Op)
    requires Accounted(s) && t.clients == s.clients && t.nextClient == s.nextClient && t.closed == s.closed
    requires op in t.ops && t.ops == s.ops[op := t.ops[op]]
    requires !t.ops[op].Connected? && (op in s.ops ==> !s.ops[op].Connected?)
    ensures Accounted(t)
  {
    forall c | Pending(s.ops, c) ensures Pending(t.ops, c) {
      var o :| o in s.ops && s.ops[o].Connected? && s.ops[o].client == c;
      assert t.ops[o] == s.ops[o];
    }
  }

  lemma ConnectKeepsAccounted(s: State, op: Op)
    requires Accounted(s) && Enabled(s, Connect(op, true))
    ensures Accounted(After(s, Connect(op, true)))
  {
    var t := After(s, Connect(op, true));
    assert Pending(t.ops, s.nextClient) by { assert t.ops[op].Connected? && t.ops[op].client == s.nextClient; }
    forall c | Pending(s.ops, c) ensures Pending(t.ops, c) {
      var o :| o in s.ops && s.ops[o].Connected? && s.ops[o].client == c;
      assert t.ops[o] == s.ops[o];
    }
  }

  lemma StillPending(s: State, t: State, op: Op, c: Client)
    requires Pending(s.ops, c) && op in s.ops && op in t.ops && t.ops == s.ops[op := t.ops[op]]
    requires s.ops[op].Connected? ==> s.ops[op].client != c
    ensures Pending(t.ops, c)
  {
    var o :| o in s.ops && s.ops[o].Connected? && s.ops[o].client == c;
    assert t.ops[o] == s.ops[o];
  }

  /** A client that lost the race is closed. */
  lemma LosingKeepsAccounted(s: State, op: Op)
    requires Accounted(s) && Enabled(s, Register(op)) && s.ops[op].account in s.clients
    ensures Accounted(After(s, Register(op)))
  {
    var t, client := After(s, Register(op)), s.ops[op].client;
    assert t.clients == s.clients && t.closed == s.closed + {client} && t.nextClient == s.nextClient;
    assert t.ops == s.ops[op := t.ops[op]];
    assert forall a :: a in s.clients && s.clients[a] == client ==> Kept(s.clients, client);
    forall c | 0 <= c < t.nextClient ensures Kept(t.clients, c) || Pending(t.ops, c) || c in t.closed {
      if c != client && Pending(s.ops, c) { StillPending(s, t, op, c); }
    }
  }

  /** The client that won is kept. */
  lemma WinningKeepsAccounted(s: State, op: Op)
    requires Accounted(s) && Enabled(s, Register(op)) && s.ops[op].account !in s.clients
    ensures Accounted(After(s, Register(op)))
  {
    var t, account, client := After(s, Register(op)), s.ops[op].account, s.ops[op].client;
    assert t.clients == s.clients[account := client] && t.closed == s.closed && t.nextClient == s.nextClient;
    assert t.ops == s.ops[op := t.ops[op]];
    forall c ensures Kept(t.clients, c) <==> Kept(s.clients, c) || c == client {
      if Kept(s.clients, c) {
        var a :| a in s.clients && s.clients[a] == c;
        assert t.clients[a] == c;
      }
      assert t.clients[account] == client;
    }
    assert forall a :: a in s.clients && s.clients[a] == client ==> Kept(s.clients, client);
    forall c | 0 <= c < t.nextClient ensures Kept(t.clients, c) || Pending(t.ops, c) || c in t.closed {
      if c != client && Pending(s.ops, c) { StillPending(s, t, op, c); }
    }
  }

  lemma AccountedKept(s: State, e: Event)
    requires Accounted(s) && Enabled(s, e)
    ensures Accounted(After(s, e))
  {
    if e.Register? {
      if s.ops[e.op].account in s.clients { LosingKeepsAccounted(s, e.op); } else { WinningKeepsAccounted(s, e.op); }
    } else if e.Connect? && e.ok {
      ConnectKeepsAccounted(s, e.op);
    } else {
      var t := After(s, e);
      assert t.ops == s.ops[e.op := t.ops[e.op]];
      MoveKeepsAccounted(s, t, e.op);
    }
  }

  // ---------------------------------------------------------------- over whole runs

  /** The run, as long as every event can happen when its turn comes. */
  function Run(s: State, events: seq<Event>): Option<State>
    decreases |events|
  {
    if events == [] then Some(s)
    else if !Enabled(s, events[0]) then None
    else Run(After(s, events[0]), events[1..])
  }

  lemma {:induction false} RunKeepsInvariant(s: State, events: seq<Event>)
    requires Invariant(s) && Run(s, events).Some?
    ensures Invariant(Run(s, events).value)
    decreases |events|
  {
    if events != [] {
      var e := events[0];
      SharedKept(s, e);
      LocksKept(s, e);
      ExclusiveKept(s, e);
      AccountedKept(s, e);
      RunKeepsInvariant(After(s, e), events[1..]);
    }
  }

  /** In every interleaving, no prune of an account runs while one of its uploads is in flight, pinned or not. */
  lemma NoPruneDuringUpload(events: seq<Event>, up: Op, prune: Op)
    requires Run(INITIAL, events).Some?
    requires var s := Run(INITIAL, events).value;
             up in s.ops && prune in s.ops && s.ops[up].Uploading? && s.ops[prune].Pruning?
    ensures var s := Run(INITIAL, events).value;
            s.ops[up].account != s.ops[prune].account
  {
    RunKeepsInvariant(INITIAL, events);
    var s := Run(INITIAL, events).value;
    assert up in ReadersOf(s, s.ops[up].lock);
  }

  /** In every interleaving, operations on one account share its lock and its one client. */
  lemma OneLockOneClient(events: seq<Event>, o: Op, p: Op)
    requires Run(INITIAL, events).Some?
    requires var s := Run(INITIAL, events).value;
             o in s.ops && p in s.ops && Holding(s.ops[o]) && Holding(s.ops[p])
    ensures var s := Run(INITIAL, events).value;
            && (s.ops[o].account == s.ops[p].account <==> s.ops[o].lock == s.ops[p].lock)
            && (s.ops[o].account == s.ops[p].account <==> s.ops[o].client == s.ops[p].client)
            && s.ops[o].client !in s.closed
  {
    RunKeepsInvariant(INITIAL, events);
  }

  /** In every interleaving, a connected client that is neither kept nor about to be registered was closed. */
  lemma LosersAreClosed(events: seq<Event>, c: Client)
    requires Run(INITIAL, events).Some? && c < Run(INITIAL, events).value.nextClient
    ensures var s := Run(INITIAL, events).value;
            c in s.closed <==> !Kept(s.clients, c) && !Pending(s.ops, c)
  {
    RunKeepsInvariant(INITIAL, events);
    var s := Run(INITIAL, events).value;
    forall a | a in s.clients && s.clients[a] == c ensures c !in s.closed {
    }
    forall op | op in s.ops && s.ops[op].Connected? && s.ops[op].client == c ensures c !in s.closed {
    }
  }

  // ---------------------------------------------------------------- nothing waits for nothing

  /** An operation of the account is uploading, or is pruning. */
  ghost predicate Uploads(s: State, account: Account) {
    exists op :: op in s.ops && s.ops[op].Uploading? && s.ops[op].account == account
  }

  ghost predicate Prunes(s: State, account: Account) {
    exists op :: op in s.ops && s.ops[op].Pruning? && s.ops[op].account == account
  }

  lemma WriterIsPrune(s: State, op: Op)
    requires Invariant(s) && op in s.ops && Holding(s.ops[op])
    ensures s.ops[op].lock in s.writers <==> Prunes(s, s.ops[op].account)
  {
    var account, lock := s.ops[op].account, s.ops[op].lock;
    if lock in s.writers {
      var writer := s.writers[lock];
      assert s.locks[s.ops[writer].account] == s.locks[account];
      assert s.ops[writer].Pruning? && s.ops[writer].account == account;
    }
    if Prunes(s, account) {
      var writer :| writer in s.ops && s.ops[writer].Pruning? && s.ops[writer].account == account;
      assert s.ops[writer].lock == s.locks[account];
    }
  }

  lemma ReadersAreUploads(s: State, op: Op)
    requires Invariant(s) && op in s.ops && Holding(s.ops[op])
    ensures ReadersOf(s, s.ops[op].lock) != {} <==> Uploads(s, s.ops[op].account)
  {
    var account, lock := s.ops[op].account, s.ops[op].lock;
    if ReadersOf(s, lock) != {} {
      var up :| up in ReadersOf(s, lock);
      assert s.locks[s.ops[up].account] == s.locks[account];
      assert s.ops[up].Uploading? && s.ops[up].account == account;
    }
    if Uploads(s, account) {
      var up :| up in s.ops && s.ops[up].Uploading? && s.ops[up].account == account;
      assert s.ops[up].lock == s.locks[account];
      assert up in ReadersOf(s, lock);
    }
  }

  /** In every interleaving, an operation with its client may upload exactly when no prune of its account is running. */
  lemma UploadWaitsOnlyForPrune(events: seq<Event>, op: Op)
    requires Run(INITIAL, events).Some?
    requires op in Run(INITIAL, events).value.ops && Run(INITIAL, events).value.ops[op].Ready?
    ensures var s := Run(INITIAL, events).value;
            Enabled(s, StartUpload(op)) <==> !Prunes(s, s.ops[op].account)
  {
    RunKeepsInvariant(INITIAL, events);
    WriterIsPrune(Run(INITIAL, events).value, op);
  }

  /** In every interleaving, a prune goes ahead exactly when nothing of its account is uploading or pruning; else it is skipped. */
  lemma PruneGoesAheadIff(events: seq<Event>, op: Op)
    requires Run(INITIAL, events).Some?
    requires op in Run(INITIAL, events).value.ops && Run(INITIAL, events).value.ops[op].Ready?
    ensures Enabled(Run(INITIAL, events).value, TryPrune(op))
    ensures var s := Run(INITIAL, events).value;
            var t := After(s, TryPrune(op));
            if Uploads(s, s.ops[op].account) || Prunes(s, s.ops[op].account) then t.ops[op].Finished? else t.ops[op].Pruning?
  {
    RunKeepsInvariant(INITIAL, events);
    var s := Run(INITIAL, events).value;
    WriterIsPrune(s, op);
    ReadersAreUploads(s, op);
  }
}
