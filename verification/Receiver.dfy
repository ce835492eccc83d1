/** Replay protection of the sync receiver (ServeHTTP, checkAndStoreNonce): the timestamp
    window and the nonce memory together, over whole runs. */
module Receiver {
  import opened Common

  const SECOND: int := 1_000_000_000 // clock readings and event timestamps are in nanoseconds
  const REPLAY_WINDOW_SEC: int := 300
  const NONCE_TTL: int := 600 * SECOND

  // One request: what it carries, whether its HMAC is valid under the configured secret, the
  // clock readings taken while it is served, and whether applying its event succeeds.
  datatype Request = Request(nonce: string, ts: int, valid: bool, arrival: int, checked: int, stored: int, applies: bool)

  datatype Status = NoContent | Unauthorized | ApplyFailed

  // Unix() rounds down.
  function UnixSec(t: int): int
  {
    t / SECOND
  }

  // The division of an int64 rounds toward zero.
  function TimestampSec(ts: int): int
  {
    if 0 <= ts then ts / SECOND else -(-ts / SECOND)
  }

  predicate InWindow(ts: int, arrival: int)
  {
    -REPLAY_WINDOW_SEC <= UnixSec(arrival) - TimestampSec(ts) <= REPLAY_WINDOW_SEC
  }

  // The request gets as far as the nonce memory.
  predicate Reaches(r: Request)
  {
    r.valid && InWindow(r.ts, r.arrival) && r.nonce != ""
  }

  function Survivors(seen: map<string, int>, cutoff: int): map<string, int>
  {
    map n | n in seen && cutoff <= seen[n] :: seen[n]
  }

  predicate Accepts(seen: map<string, int>, r: Request)
  {
    Reaches(r) && r.nonce !in Survivors(seen, r.checked - NONCE_TTL)
  }

  function Serve(seen: map<string, int>, r: Request): map<string, int>
  {
    if !Reaches(r) then seen
    else
      var kept := Survivors(seen, r.checked - NONCE_TTL);
      if r.nonce in kept then kept else kept[r.nonce := r.stored]
  }

  class ReceiverHandler {
    const secret: string
    var seenNonces: map<string, int>

    constructor (secret: string)
      ensures seenNonces == map[] && this.secret == secret
    {
      this.secret, seenNonces := secret, map[];
    }

    method CheckAndStoreNonce(nonce: string, checked: int, stored: int) returns (ok: bool)
      modifies this
      ensures nonce == "" ==> !ok && seenNonces == old(seenNonces)
      ensures nonce != "" ==>
                var kept := Survivors(old(seenNonces), checked - NONCE_TTL);
                (ok <==> nonce !in kept) && seenNonces == if ok then kept[nonce := stored] else kept
    {
      if nonce == "" {
        return false;
      }
      var cutoff := checked - NONCE_TTL;
      var todo := seenNonces.Keys;
      while todo != {}
        invariant todo <= seenNonces.Keys <= old(seenNonces).Keys
        invariant forall n :: n in old(seenNonces) ==> (n in seenNonces <==> n in todo || cutoff <= old(seenNonces)[n])
        invariant forall n :: n in seenNonces ==> seenNonces[n] == old(seenNonces)[n]
      {
        var n :| n in todo;
        if seenNonces[n] < cutoff {
          seenNonces := seenNonces - {n};
        }
        todo := todo - {n};
      }
      assert seenNonces == Survivors(old(seenNonces), cutoff);
      if nonce in seenNonces {
        return false;
      }
      seenNonces := seenNonces[nonce := stored];
      return true;
    }

    // validHMAC is the verdict of the HMAC check under the secret; without a secret nothing passes.
    method ServeHTTP(r: Request, validHMAC: bool) returns (status: Status)
      requires r.valid == (secret != "" && validHMAC)
      modifies this
      ensures seenNonces == Serve(old(seenNonces), r)
      ensures status == if !Accepts(old(seenNonces), r) then Unauthorized else if r.applies then NoContent else ApplyFailed
    {
      if secret == "" {
        return Unauthorized;
      }
      if !validHMAC {
        return Unauthorized;
      }
      var diff := UnixSec(r.arrival) - TimestampSec(r.ts);
      if diff < 0 {
        diff := -diff;
      }
      if diff > REPLAY_WINDOW_SEC {
        return Unauthorized;
      }
      var unseen := CheckAndStoreNonce(r.nonce, r.checked, r.stored);
      if !unseen {
        return Unauthorized;
      }
      if !r.applies {
        return ApplyFailed;
      }
      return NoContent;
    }
  }

  // ---------- whole runs ----------

  // Requests in the order in which they pass the lock of the nonce memory.
  function After(run: seq<Request>): map<string, int>
  {
    if run == [] then map[] else Serve(After(run[..|run| - 1]), run[|run| - 1])
  }

  predicate AcceptedAt(run: seq<Request>, i: nat)
    requires i < |run|
  {
    Accepts(After(run[..i]), run[i])
  }

  // The clock never goes back. A request reads it on arrival, before the lock, and twice
  // under the lock.
  ghost predicate Clocked(run: seq<Request>)
  {
    && (forall i :: 0 <= i < |run| && Reaches(run[i]) ==> run[i].arrival <= run[i].checked <= run[i].stored)
    && (forall i, j :: 0 <= i < j < |run| && Reaches(run[i]) && Reaches(run[j]) ==> run[i].stored <= run[j].checked)
  }

  // run[i] was accepted under this nonce and its mark has not expired at the given cutoff.
  predicate Remembers(run: seq<Request>, i: nat, nonce: string, cutoff: int)
    requires i < |run|
  {
    run[i].nonce == nonce && AcceptedAt(run, i) && cutoff <= run[i].stored
  }

  // The memory at position n holds exactly the nonces accepted and not expired at the last
  // reading of the clock, with their times.
  ghost predicate Faithful(run: seq<Request>, n: nat, cutoff: int)
    requires n <= |run|
  {
    forall nonce :: (nonce in After(run[..n]) && cutoff <= After(run[..n])[nonce] <==>
      exists i: nat :: i < n && Remembers(run, i, nonce, cutoff))
  }

  lemma {:induction false} MemoryIsFaithful(run: seq<Request>, n: nat, cutoff: int)
    requires Clocked(run) && n <= |run|
    requires forall i :: 0 <= i < n && Reaches(run[i]) ==> run[i].checked - NONCE_TTL <= cutoff
    ensures Faithful(run, n, cutoff)
  {
    if n == 0 {
      assert run[..0] == [];
    } else {
      MemoryIsFaithful(run, n - 1, cutoff);
      assert run[..n][..n - 1] == run[..n - 1];
      MemoryStep(run, n - 1, cutoff);
    }
  }

  lemma MemoryStep(run: seq<Request>, n: nat, cutoff: int)
    requires n < |run| && Faithful(run, n, cutoff)
    requires run[..n + 1][..n] == run[..n]
    requires Reaches(run[n]) ==> run[n].checked - NONCE_TTL <= cutoff
    ensures Faithful(run, n + 1, cutoff)
  {
    hide Reaches;
    var before, after, r := After(run[..n]), After(run[..n + 1]), run[n];
    assert after == Serve(before, r);
    forall nonce
      ensures (nonce in after && cutoff <= after[nonce]) <==>
              (nonce in before && cutoff <= before[nonce]) || Remembers(run, n, nonce, cutoff)
    {
    }
    forall nonce
      ensures (exists i: nat :: i < n + 1 && Remembers(run, i, nonce, cutoff)) <==>
              (exists i: nat :: i < n && Remembers(run, i, nonce, cutoff)) || Remembers(run, n, nonce, cutoff)
    {
      if i: nat :| i < n + 1 && Remembers(run, i, nonce, cutoff) {
        assert i < n || i == n;
      }
    }
  }

  // t nanoseconds lie in the second sec.
  predicate InSecond(t: int, sec: int)
  {
    sec * 1_000_000_000 <= t < (sec + 1) * 1_000_000_000
  }

  // The second of a time stamp; before the epoch the next one counts, as division truncates.
  predicate StampedIn(ts: int, sec: int)
  {
    if ts < 0 then InSecond(-ts, -sec) else InSecond(ts, sec)
  }

  // The window reaches 300 whole seconds to either side of the clock.
  lemma InWindowExactly(ts: int, arrival: int, now: int, sec: int)
    requires InSecond(arrival, now) && StampedIn(ts, sec)
    ensures InWindow(ts, arrival) <==> -300 <= now - sec <= 300
  {
  }

  // The nonce of run[j] was accepted at i, no more than ten minutes before.
  predicate Repeats(run: seq<Request>, i: nat, j: nat)
    requires i < j < |run|
  {
    run[i].nonce == run[j].nonce && AcceptedAt(run, i) && run[j].checked <= run[i].stored + 600_000_000_000
  }

  // A request is accepted exactly when it is signed and has a nonce, its time stamp is inside
  // the window, and its nonce was not accepted in the ten minutes before.
  lemma AcceptedExactlyWhenNotSeen(run: seq<Request>, j: nat, now: int, sec: int)
    requires Clocked(run) && j < |run| && InSecond(run[j].arrival, now) && StampedIn(run[j].ts, sec)
    ensures AcceptedAt(run, j) <==>
            && run[j].valid && run[j].nonce != "" && -300 <= now - sec <= 300
            && forall i: nat :: i < j ==> !Repeats(run, i, j)
  {
    InWindowExactly(run[j].ts, run[j].arrival, now, sec);
    hide InWindow, InSecond, StampedIn, Survivors;
    if Reaches(run[j]) {
      var cutoff := run[j].checked - NONCE_TTL;
      MemoryIsFaithful(run, j, cutoff);
      assert forall i: nat :: i < j ==> Repeats(run, i, j) == Remembers(run, i, run[j].nonce, cutoff);
      AcceptedByMemory(run, j, cutoff);
    }
  }

  lemma AcceptedByMemory(run: seq<Request>, j: nat, cutoff: int)
    requires j < |run| && Reaches(run[j]) && Faithful(run, j, cutoff) && cutoff == run[j].checked - NONCE_TTL
    ensures AcceptedAt(run, j) <==> forall i: nat :: i < j ==> !Remembers(run, i, run[j].nonce, cutoff)
  {
    hide Reaches, After, Remembers;
  }

  // In particular a retry within the lifetime is turned away, also when the first delivery
  // was accepted but could not be applied.
  lemma EarlyRetryRejected(run: seq<Request>, i: nat, j: nat)
    requires Clocked(run) && i < j < |run| && AcceptedAt(run, i) && run[j].nonce == run[i].nonce
    requires run[j].checked <= run[i].stored + NONCE_TTL
    ensures !AcceptedAt(run, j)
  {
    if Reaches(run[j]) {
      var cutoff := run[j].checked - NONCE_TTL;
      MemoryIsFaithful(run, j, cutoff);
      AcceptedByMemory(run, j, cutoff);
      assert Remembers(run, i, run[j].nonce, cutoff);
    }
  }

  // At most once: an event whose timestamp lies at most 299 seconds, less the longest wait for
  // the lock, ahead of the receiver's clock is accepted only once in any run.
  lemma AcceptedAtMostOnce(run: seq<Request>, i: nat, j: nat, waitSec: nat)
    requires Clocked(run) && i < j < |run|
    requires run[j].nonce == run[i].nonce && run[j].ts == run[i].ts && AcceptedAt(run, i)
    requires Reaches(run[j]) ==> run[j].checked <= run[j].arrival + waitSec * SECOND
    requires TimestampSec(run[i].ts) <= UnixSec(run[i].arrival) + 299 - waitSec
    ensures !AcceptedAt(run, j)
  {
    if Reaches(run[j]) {
      TooEarlyToForget(run[i].arrival, run[j].arrival, run[i].ts, waitSec);
      EarlyRetryRejected(run, i, j);
    }
  }

  // While the timestamp is still inside the window, the nonce has not expired.
  lemma TooEarlyToForget(first: int, again: int, ts: int, waitSec: nat)
    requires InWindow(ts, again) && TimestampSec(ts) <= UnixSec(first) + 299 - waitSec
    ensures again + waitSec * SECOND <= first + NONCE_TTL
  {
  }

  // Served in an instant.
  function At(nonce: string, ts: int, t: int): Request
  {
    Request(nonce, ts, true, t, t, t, true)
  }

  // The bound is exact: once a nonce is stored, the same event is accepted again at some later
  // instant if and only if its timestamp is 300 seconds or more ahead of the next nanosecond.
  lemma ReplayableExactlyBeyondBound(seen: map<string, int>, nonce: string, ts: int)
    requires nonce in seen && nonce != ""
    ensures (exists t: int :: seen[nonce] <= t && Accepts(seen, At(nonce, ts, t)))
            <==> UnixSec(seen[nonce] + 1) + 300 <= TimestampSec(ts)
  {
    var sec := TimestampSec(ts);
    var expired := seen[nonce] + NONCE_TTL + 1;
    if UnixSec(seen[nonce] + 1) + 300 <= sec {
      var t := if expired < (sec - 300) * SECOND then (sec - 300) * SECOND else expired;
      assert UnixSec(expired) == UnixSec(seen[nonce] + 1) + 600;
      assert Accepts(seen, At(nonce, ts, t));
    }
    if t: int :| seen[nonce] <= t && Accepts(seen, At(nonce, ts, t)) {
      assert expired <= t;
      assert UnixSec(seen[nonce] + 1) + 600 <= UnixSec(t);
    }
  }
}
