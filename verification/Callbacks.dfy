/** Replay protection of signed control-plane callbacks: remembered nonces, forgotten once expired. */
module Callbacks {
  import opened Common

  /** Nanoseconds. */
  const SECOND: int := 1_000_000_000
  const WINDOW: int := 300 * SECOND

  /** What arrives: the signed timestamp in seconds and nonce, and the node's clock when it is handled. */
  datatype Callback = Callback(timestamp: int, nonce: string, now: int)

  function CallbackTime(c: Callback): int {
    c.timestamp * SECOND
  }

  function ExpiresAt(c: Callback): int {
    CallbackTime(c) + WINDOW
  }

  /** Checks that do not depend on what came before. */
  predicate Timely(c: Callback, startedAt: int) {
    && 16 <= |c.nonce| <= 128
    && -WINDOW <= c.now - CallbackTime(c) <= WINDOW
    && CallbackTime(c) >= startedAt / SECOND * SECOND
  }

  // ---------------------------------------------------------------- remembering everything

  /** The callbacks accepted so far when nothing is ever forgotten. */
  function AcceptedUpTo(calls: seq<Callback>, n: nat, startedAt: int): seq<Callback>
    requires n <= |calls|
  {
    if n == 0 then []
    else
      var before := AcceptedUpTo(calls, n - 1, startedAt);
      if Accepts(before, calls[n - 1], startedAt) then before + [calls[n - 1]] else before
  }

  /** Timely, and no accepted callback with this nonce is still within its window. */
  predicate Accepts(history: seq<Callback>, c: Callback, startedAt: int) {
    Timely(c, startedAt) && forall i :: 0 <= i < |history| && history[i].nonce == c.nonce ==> ExpiresAt(history[i]) <= c.now
  }

  /** How each of the first n callbacks is decided. */
  function Decisions(calls: seq<Callback>, n: nat, startedAt: int): seq<bool>
    requires n <= |calls|
  {
    if n == 0 then []
    else Decisions(calls, n - 1, startedAt) + [Accepts(AcceptedUpTo(calls, n - 1, startedAt), calls[n - 1], startedAt)]
  }

  lemma DecidedNext(calls: seq<Callback>, i: nat, startedAt: int, history: seq<Callback>, decisions: seq<bool>, ok: bool)
    requires i < |calls| && history == AcceptedUpTo(calls, i, startedAt) && decisions == Decisions(calls, i, startedAt)
    requires ok <==> Accepts(history, calls[i], startedAt)
    ensures AcceptedUpTo(calls, i + 1, startedAt) == if ok then history + [calls[i]] else history
    ensures Decisions(calls, i + 1, startedAt) == decisions + [ok]
  {
  }

  ghost predicate ClockNeverGoesBack(calls: seq<Callback>) {
    forall i, j :: 0 <= i <= j < |calls| ==> calls[i].now <= calls[j].now
  }

  // ---------------------------------------------------------------- the node's memory

  /** An accepted callback with this nonce and expiry. */
  ghost predicate Came(history: seq<Callback>, nonce: string, expiry: int) {
    exists i :: 0 <= i < |history| && history[i].nonce == nonce && ExpiresAt(history[i]) == expiry
  }

  /** What the map holds stands for the whole history, at any clock reading from now on. */
  ghost predicate Remembers(nonces: map<string, int>, history: seq<Callback>, now: int) {
    && (forall i :: 0 <= i < |history| && ExpiresAt(history[i]) > now ==>
          history[i].nonce in nonces && nonces[history[i].nonce] >= ExpiresAt(history[i]))
    && (forall n :: n in nonces ==> Came(history, n, nonces[n]))
  }

  lemma RemembersLater(nonces: map<string, int>, history: seq<Callback>, now: int, later: int)
    requires Remembers(nonces, history, now) && now <= later
    ensures Remembers(nonces, history, later)
  {
  }

  function Unexpired(nonces: map<string, int>, now: int): map<string, int> {
    map n | n in nonces && nonces[n] > now :: nonces[n]
  }

  lemma PurgedRemembers(nonces: map<string, int>, history: seq<Callback>, now: int)
    requires Remembers(nonces, history, now)
    ensures Remembers(Unexpired(nonces, now), history, now)
  {
  }

  /** The map refuses a nonce exactly when some accepted callback would. */
  lemma MapDecides(nonces: map<string, int>, history: seq<Callback>, nonce: string, now: int)
    requires Remembers(nonces, history, now)
    ensures (nonce in nonces && nonces[nonce] > now) <==>
              exists i :: 0 <= i < |history| && history[i].nonce == nonce && ExpiresAt(history[i]) > now
  {
    if nonce in nonces && nonces[nonce] > now {
      assert Came(history, nonce, nonces[nonce]);
    }
  }

  lemma NewlyRemembers(nonces: map<string, int>, history: seq<Callback>, c: Callback)
    requires Remembers(nonces, history, c.now)
    requires forall i :: 0 <= i < |history| && history[i].nonce == c.nonce ==> ExpiresAt(history[i]) <= c.now
    ensures Remembers(nonces[c.nonce := ExpiresAt(c)], history + [c], c.now)
  {
    var more, after := history + [c], nonces[c.nonce := ExpiresAt(c)];
    forall n | n in after ensures Came(more, n, after[n]) {
      if n == c.nonce {
        assert more[|history|] == c;
      } else {
        var i :| 0 <= i < |history| && history[i].nonce == n && ExpiresAt(history[i]) == nonces[n];
        assert more[i] == history[i];
      }
    }
  }

  class CallbackNonces {
    const startedAt: int
    var nonces: map<string, int>

    constructor (startedAt: int)
      ensures this.startedAt == startedAt && nonces == map[]
    {
      this.startedAt := startedAt;
      nonces := map[];
    }

    /** requireControlPlaneCallback once the signature and the body's hash are checked. */
    method Require(c: Callback, ghost history: seq<Callback>) returns (ok: bool)
      requires Remembers(nonces, history, c.now)
      modifies this
      ensures ok <==> Accepts(history, c, startedAt)
      ensures Remembers(nonces, if ok then history + [c] else history, c.now)
    {
      if !Timely(c, startedAt) { return false; }
      PurgedRemembers(nonces, history, c.now);
      nonces := Purge(nonces, c.now);
      MapDecides(nonces, history, c.nonce, c.now);
      if c.nonce in nonces && nonces[c.nonce] > c.now { return false; }
      NewlyRemembers(nonces, history, c);
      nonces := nonces[c.nonce := ExpiresAt(c)];
      ok := true;
    }
  }

  /** The loop that deletes expired nonces. */
  method Purge(nonces: map<string, int>, now: int) returns (kept: map<string, int>)
    ensures kept == Unexpired(nonces, now)
  {
    kept := nonces;
    var left := nonces.Keys;
    while left != {}
      invariant left <= nonces.Keys && kept.Keys <= nonces.Keys
      invariant forall n :: n in nonces ==> (n in kept <==> n in left || nonces[n] > now)
      invariant forall n :: n in kept ==> kept[n] == nonces[n]
      decreases left
    {
      var candidate :| candidate in left;
      if nonces[candidate] <= now { kept := kept - {candidate}; }
      left := left - {candidate};
    }
  }

  /** One callback in its turn. */
  method HandleNext(memory: CallbackNonces, calls: seq<Callback>, i: nat) returns (ok: bool)
    requires i < |calls| && Remembers(memory.nonces, AcceptedUpTo(calls, i, memory.startedAt), calls[i].now)
    modifies memory
    ensures Remembers(memory.nonces, AcceptedUpTo(calls, i + 1, memory.startedAt), calls[i].now)
    ensures Decisions(calls, i + 1, memory.startedAt) == Decisions(calls, i, memory.startedAt) + [ok]
  {
    ghost var history := AcceptedUpTo(calls, i, memory.startedAt);
    ok := memory.Require(calls[i], history);
    DecidedNext(calls, i, memory.startedAt, history, Decisions(calls, i, memory.startedAt), ok);
  }

  /** On a clock that never goes back, forgetting expired nonces decides every callback as remembering all would. */
  method HandleAll(calls: seq<Callback>, startedAt: int) returns (decisions: seq<bool>)
    requires ClockNeverGoesBack(calls)
    ensures decisions == Decisions(calls, |calls|, startedAt)
  {
    var memory := new CallbackNonces(startedAt);
    decisions := [];
    ghost var clock := if calls == [] then 0 else calls[0].now;
    var i := 0;
    while i < |calls|
      invariant 0 <= i <= |calls| && fresh(memory) && memory.startedAt == startedAt
      invariant decisions == Decisions(calls, i, startedAt)
      invariant Remembers(memory.nonces, AcceptedUpTo(calls, i, startedAt), clock) && (i < |calls| ==> clock <= calls[i].now)
    {
      RemembersLater(memory.nonces, AcceptedUpTo(calls, i, startedAt), clock, calls[i].now);
      var ok := HandleNext(memory, calls, i);
      decisions := decisions + [ok];
      clock := calls[i].now;
      i := i + 1;
    }
  }

  // ---------------------------------------------------------------- at most once

  lemma {:induction false} AcceptedStay(calls: seq<Callback>, i: nat, n: nat, startedAt: int)
    requires i < n <= |calls| && Accepts(AcceptedUpTo(calls, i, startedAt), calls[i], startedAt)
    ensures calls[i] in AcceptedUpTo(calls, n, startedAt)
    decreases n
  {
    if i + 1 < n { AcceptedStay(calls, i, n - 1, startedAt); }
  }

  /** The same callback is accepted again only at the very instant its window closes. */
  lemma AcceptedAtMostOnce(calls: seq<Callback>, i: nat, j: nat, startedAt: int)
    requires i < j < |calls| && calls[i].nonce == calls[j].nonce && calls[i].timestamp == calls[j].timestamp
    requires Accepts(AcceptedUpTo(calls, i, startedAt), calls[i], startedAt)
    requires Accepts(AcceptedUpTo(calls, j, startedAt), calls[j], startedAt)
    ensures calls[j].now == ExpiresAt(calls[j])
  {
    AcceptedStay(calls, i, j, startedAt);
    var history := AcceptedUpTo(calls, j, startedAt);
    var k :| 0 <= k < |history| && history[k] == calls[i];
  }

  lemma {:induction false} AcceptedCame(calls: seq<Callback>, n: nat, startedAt: int, k: nat) returns (i: nat)
    requires n <= |calls| && k < |AcceptedUpTo(calls, n, startedAt)|
    ensures i < n && AcceptedUpTo(calls, n, startedAt)[k] == calls[i]
    decreases n
  {
    var before := AcceptedUpTo(calls, n - 1, startedAt);
    if k < |before| {
      i := AcceptedCame(calls, n - 1, startedAt, k);
    } else {
      i := n - 1;
    }
  }

  /** An accepted callback that comes again in time is accepted again if and only if the clock is at that instant. */
  lemma AcceptedAgainIff(calls: seq<Callback>, i: nat, j: nat, startedAt: int)
    requires i < j < |calls| && calls[i].nonce == calls[j].nonce && calls[i].timestamp == calls[j].timestamp
    requires forall k :: 0 <= k < j && calls[k].nonce == calls[j].nonce ==> calls[k].timestamp == calls[j].timestamp
    requires Accepts(AcceptedUpTo(calls, i, startedAt), calls[i], startedAt) && Timely(calls[j], startedAt)
    ensures Accepts(AcceptedUpTo(calls, j, startedAt), calls[j], startedAt) <==> calls[j].now == ExpiresAt(calls[j])
  {
    var history := AcceptedUpTo(calls, j, startedAt);
    if Accepts(history, calls[j], startedAt) {
      AcceptedAtMostOnce(calls, i, j, startedAt);
    }
    if calls[j].now == ExpiresAt(calls[j]) {
      forall k | 0 <= k < |history| && history[k].nonce == calls[j].nonce ensures ExpiresAt(history[k]) <= calls[j].now {
        var m := AcceptedCame(calls, j, startedAt, k);
      }
    }
  }

  /** One callback, delivered when it is sent and again 300 seconds later, is accepted both times. */
  lemma ReplayAtTheInstant(nonce: string)
    requires 16 <= |nonce| <= 128
    ensures var calls := [Callback(1000, nonce, 1000 * SECOND), Callback(1000, nonce, 1300 * SECOND)];
            ClockNeverGoesBack(calls) && Decisions(calls, 2, 1000 * SECOND) == [true, true]
  {
    var calls := [Callback(1000, nonce, 1000 * SECOND), Callback(1000, nonce, 1300 * SECOND)];
    AcceptedAgainIff(calls, 0, 1, 1000 * SECOND);
    assert Decisions(calls, 1, 1000 * SECOND) == [true];
  }

  // ---------------------------------------------------------------- what is accepted at all

  /** What is accepted is dated within five minutes of the clock, either way, and not before the second the process started in. */
  lemma AcceptedIsTimely(calls: seq<Callback>, i: nat, startedAt: int)
    requires i < |calls| && Accepts(AcceptedUpTo(calls, i, startedAt), calls[i], startedAt)
    ensures calls[i].now - 300 * SECOND <= calls[i].timestamp * SECOND <= calls[i].now + 300 * SECOND
    ensures calls[i].timestamp * SECOND > startedAt - SECOND
  {
    var started := startedAt / SECOND;
    assert startedAt == started * SECOND + startedAt % SECOND;
  }

  /** A callback sent before a restart is refused after it, in whatever company it comes, though its nonce is forgotten. */
  lemma SentBeforeRestartIsRefused(calls: seq<Callback>, i: nat, startedAt: int)
    requires i < |calls| && calls[i].timestamp < startedAt / SECOND
    ensures !Accepts(AcceptedUpTo(calls, i, startedAt), calls[i], startedAt)
  {
  }

  /** With a nonce not seen before, being timely is all it takes. */
  lemma NewIsAcceptedIff(calls: seq<Callback>, i: nat, startedAt: int)
    requires i < |calls| && forall k :: 0 <= k < i ==> calls[k].nonce != calls[i].nonce
    ensures Accepts(AcceptedUpTo(calls, i, startedAt), calls[i], startedAt) <==>
              && 16 <= |calls[i].nonce| <= 128
              && calls[i].now - 300 * SECOND <= calls[i].timestamp * SECOND <= calls[i].now + 300 * SECOND
              && calls[i].timestamp >= startedAt / SECOND
  {
    var history := AcceptedUpTo(calls, i, startedAt);
    forall k | 0 <= k < |history| ensures history[k].nonce != calls[i].nonce {
      var m := AcceptedCame(calls, i, startedAt, k);
    }
  }
}
