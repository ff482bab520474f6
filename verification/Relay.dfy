/**
 * Relay leases: a session's newest tunnel replaces the one before. Every critical section
 * under the mutex and every stop call is one method here, so an interleaving is a sequence of calls.
 */
module Relay {
  import opened Common

  /** Leases are numbered in the order they were claimed; claims[l] is the session of lease l. */
  type Claims = seq<string>

  /** No later claim is for the same session. */
  ghost predicate Newest(claims: Claims, l: nat) {
    l < |claims| && forall k :: l < k < |claims| ==> claims[k] != claims[l]
  }

  lemma NewestNext(claims: Claims, session: string, l: nat)
    ensures Newest(claims + [session], l) <==> l == |claims| || (Newest(claims, l) && claims[l] != session)
  {
    var more := claims + [session];
    if l < |claims| && Newest(more, l) {
      assert more[|claims|] != more[l];
      forall k | l < k < |claims| ensures claims[k] != claims[l] {
        assert more[k] != more[l];
      }
    }
  }

  /** The map holds the newest claimant of each session, unless that one gave up. */
  ghost predicate MapValid(leases: map<string, nat>, claims: Claims, released: set<nat>) {
    && (forall s :: s in leases ==> Newest(claims, leases[s]) && claims[leases[s]] == s && leases[s] !in released)
    && (forall l: nat :: Newest(claims, l) && l !in released ==> claims[l] in leases && leases[claims[l]] == l)
  }

  lemma ClaimKeepsMap(leases: map<string, nat>, claims: Claims, released: set<nat>, session: string)
    requires MapValid(leases, claims, released) && |claims| !in released
    ensures MapValid(leases[session := |claims|], claims + [session], released)
  {
    forall l: nat ensures Newest(claims + [session], l) <==> l == |claims| || (Newest(claims, l) && claims[l] != session) {
      NewestNext(claims, session, l);
    }
  }

  lemma ReleaseKeepsMap(leases: map<string, nat>, claims: Claims, released: set<nat>, lease: nat)
    requires MapValid(leases, claims, released) && lease < |claims|
    ensures var s := claims[lease];
            var after := if s in leases && leases[s] == lease then leases - {s} else leases;
            MapValid(after, claims, released + {lease})
  {
    var s := claims[lease];
    var after := if s in leases && leases[s] == lease then leases - {s} else leases;
    forall t | t in after ensures after[t] != lease {
      assert t in leases && claims[leases[t]] == t;
    }
    forall l: nat | Newest(claims, l) && l !in released + {lease} ensures claims[l] in after && after[claims[l]] == l {
      assert claims[l] in leases && leases[claims[l]] == l;
    }
  }

  /** A replaced lease is followed by its successor, the next claim of the session. */
  ghost predicate Replaced(claims: Claims, l: nat, heir: nat) {
    l < heir < |claims| && claims[l] == claims[heir] && forall k :: l < k < heir ==> claims[k] != claims[l]
  }

  /** A lease that is no longer the newest was replaced or had given up; only a replaced one is stopped, once. */
  ghost predicate StopsValid(claims: Claims, released: set<nat>, successor: map<nat, nat>, stops: multiset<nat>) {
    && (forall l :: l in successor ==> Replaced(claims, l, successor[l]))
    && (forall l: nat :: l < |claims| && !Newest(claims, l) ==> l in released || l in successor)
    && (forall l :: stops[l] <= if l in successor then 1 else 0)
  }

  lemma ReplacedStays(claims: Claims, session: string, l: nat, heir: nat)
    requires Replaced(claims, l, heir)
    ensures Replaced(claims + [session], l, heir)
  {
    var more := claims + [session];
    assert forall k :: 0 <= k < |claims| ==> more[k] == claims[k];
  }

  lemma NewestIsNotReplaced(claims: Claims, released: set<nat>, successor: map<nat, nat>, stops: multiset<nat>, l: nat)
    requires StopsValid(claims, released, successor, stops) && Newest(claims, l)
    ensures l !in successor && stops[l] == 0
  {
    assert l in successor ==> Replaced(claims, l, successor[l]);
  }

  /** The lease the map held, if any, is the one the new claim replaces. */
  ghost function Succeeded(leases: map<string, nat>, session: string, lease: nat, successor: map<nat, nat>): map<nat, nat> {
    if session in leases then successor[leases[session] := lease] else successor
  }

  lemma ClaimReplaces(leases: map<string, nat>, claims: Claims, released: set<nat>, session: string)
    requires MapValid(leases, claims, released) && session in leases
    ensures Replaced(claims + [session], leases[session], |claims|)
  {
    var l, more := leases[session], claims + [session];
    assert Newest(claims, l);
    assert more[|claims|] == session && more[l] == claims[l];
    assert forall k :: l < k < |claims| ==> more[k] == claims[k];
  }

  lemma ClaimKeepsStops(leases: map<string, nat>, claims: Claims, released: set<nat>, successor: map<nat, nat>,
                        stops: multiset<nat>, session: string)
    requires MapValid(leases, claims, released) && StopsValid(claims, released, successor, stops)
    ensures StopsValid(claims + [session], released, Succeeded(leases, session, |claims|, successor), stops)
  {
    var more, after := claims + [session], Succeeded(leases, session, |claims|, successor);
    if session in leases { ClaimReplaces(leases, claims, released, session); }
    forall l | l in after ensures Replaced(more, l, after[l]) {
      if l in successor && after[l] == successor[l] { ReplacedStays(claims, session, l, successor[l]); }
    }
    forall l: nat | l < |more| && !Newest(more, l) ensures l in released || l in after {
      NewestNext(claims, session, l);
      if Newest(claims, l) && l !in released {
        assert claims[l] in leases && leases[claims[l]] == l;
      }
    }
  }

  class RelayLeases {
    var leases: map<string, nat>
    /** The number of the next lease: a lease is told apart by its identity. */
    var next: nat
    /** Every claim made, and the leases given up. */
    ghost var claims: Claims
    ghost var released: set<nat>
    /** For a lease that was live when its session was claimed again, the lease that replaced it. */
    ghost var successor: map<nat, nat>
    /** How often each lease's stop was called. */
    ghost var stops: multiset<nat>

    constructor ()
      ensures Valid() && claims == [] && released == {} && successor == map[] && stops == multiset{}
    {
      leases, next, claims, released, successor, stops := map[], 0, [], {}, map[], multiset{};
    }

    ghost predicate Valid()
      reads this
    {
      && next == |claims|
      && (forall l :: l in released ==> l < |claims|)
      && MapValid(leases, claims, released)
      && StopsValid(claims, released, successor, stops)
    }

    /** Replaced and not stopped yet: its successor is about to stop it. */
    ghost predicate Pending(l: nat)
      reads this
    {
      l in successor && stops[l] == 0
    }

    /** A tunnel that was neither ended nor told to end. */
    ghost predicate Live(l: nat)
      reads this
    {
      l < |claims| && l !in released && stops[l] == 0
    }

    /** claimRelaySession's critical section: what it returns is stopped next, outside the mutex. */
    method Claim(session: string) returns (lease: nat, previous: Option<nat>)
      requires Valid()
      modifies this
      ensures Valid()
      ensures lease == |old(claims)| && claims == old(claims) + [session]
      ensures leases == old(leases)[session := lease] && released == old(released) && stops == old(stops)
      ensures previous == if session in old(leases) then Some(old(leases)[session]) else None
      ensures successor == Succeeded(old(leases), session, lease, old(successor))
      ensures previous.Some? ==> Pending(previous.value) && previous.value !in released
    {
      ClaimKeepsMap(leases, claims, released, session);
      ClaimKeepsStops(leases, claims, released, successor, stops, session);
      lease, next := next, next + 1;
      previous := if session in leases then Some(leases[session]) else None;
      if previous.Some? { NewestIsNotReplaced(claims, released, successor, stops, previous.value); }
      successor := Succeeded(leases, session, lease, successor);
      leases := leases[session := lease];
      claims := claims + [session];
    }

    /** previous.stop(). */
    method StopPrevious(previous: nat)
      requires Valid() && Pending(previous)
      modifies this`stops
      ensures Valid() && stops == old(stops)[previous := 1]
    {
      stops := stops[previous := 1];
    }

    /** The returned func: gives a claim up, whenever the tunnel ends and however often it is called. */
    method Release(session: string, lease: nat)
      requires Valid() && lease < |claims| && claims[lease] == session
      modifies this`leases, this`released
      ensures Valid() && released == old(released) + {lease}
      ensures leases == if session in old(leases) && old(leases)[session] == lease then old(leases) - {session} else old(leases)
    {
      ReleaseKeepsMap(leases, claims, released, lease);
      if session in leases && leases[session] == lease { leases := leases - {session}; }
      released := released + {lease};
    }

    /** A release after a newer claim finds the newer lease in the map, or none, and leaves it there. */
    lemma LateReleaseIsHarmless(lease: nat)
      requires Valid() && lease < |claims| && !Newest(claims, lease)
      ensures claims[lease] in leases ==> leases[claims[lease]] != lease
    {
    }

    /** Once every pending stop has run, a session has at most one live tunnel, its newest. */
    lemma AtMostOneLive(l: nat, k: nat)
      requires Valid() && Live(l) && Live(k) && claims[l] == claims[k]
      requires forall p :: !Pending(p)
      ensures l == k && claims[l] in leases && leases[claims[l]] == l
    {
      assert !Pending(l) && !Pending(k);
      assert Newest(claims, l) && Newest(claims, k);
    }
  }
}
