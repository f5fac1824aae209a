/** The cooldown gate of `step_implement`. */
module ImplementCooldown {
  import opened Prelude

  const MINUTE := 60
  const COOLDOWN_MIN := 60

  const HOUR := 3600

  /** One run of the implementer: when it read the gate, when it wrote its
      envelope if it got past, whether it was forced, and whether it was killed
      before it could write one. */
  datatype Attempt = Attempt(at: int, done: int, forced: bool, killed: bool)

  /** `_implement_cooldown_active`, from the date of the last envelope, if any. */
  predicate CooldownActive(generatedAt: Option<int>, now: int) {
    generatedAt.Some? && (now - generatedAt.value) / MINUTE < COOLDOWN_MIN
  }

  predicate Stops(generatedAt: Option<int>, a: Attempt) {
    CooldownActive(generatedAt, a.at) && !a.forced
  }

  /** Every run that lives to write it leaves an envelope, the ones the cooldown stops included. */
  function Leaves(generatedAt: Option<int>, a: Attempt): Option<int> {
    if a.killed then generatedAt else Some(if Stops(generatedAt, a) then a.at else a.done)
  }

  /** The run gets past the cooldown: it finds no envelope, or one at least the
      cooldown old, or is forced. */
  predicate GetsPast(attempts: seq<Attempt>, i: nat)
    requires i < |attempts|
  {
    var last := EnvelopeBefore(attempts, i);
    last.None? || attempts[i].forced || attempts[i].at - last.value >= HOUR
  }

  /** Comparing whole minutes is comparing the times, as the cooldown is a whole number of minutes. */
  lemma WholeMinutes(elapsed: int)
    ensures elapsed / MINUTE < COOLDOWN_MIN <==> elapsed < HOUR
  {
  }

  class ImplementGate {
    // the date in the implement envelope, once there is one
    var generatedAt: Option<int>

    constructor ()
      ensures generatedAt == None
    {
      generatedAt := None;
    }

    /** The runs one after the other; which of them got past the cooldown. */
    method Attempts(attempts: seq<Attempt>) returns (passed: seq<bool>)
      requires generatedAt == None
      modifies this
      ensures |passed| == |attempts|
      ensures forall i :: 0 <= i < |attempts| ==> passed[i] == GetsPast(attempts, i)
    {
      passed := [];
      for i := 0 to |attempts|
        invariant |passed| == i
        invariant generatedAt == EnvelopeBefore(attempts, i)
        invariant forall k :: 0 <= k < i ==> passed[k] == GetsPast(attempts, k)
      {
        var a := attempts[i];
        var envelope;
        if generatedAt.Some? { WholeMinutes(a.at - generatedAt.value); }
        if generatedAt.Some? && (a.at - generatedAt.value) / MINUTE < COOLDOWN_MIN && !a.forced {
          passed := passed + [false];
          envelope := a.at;
        } else {
          passed := passed + [true];
          envelope := a.done;
        }
        if !a.killed { generatedAt := Some(envelope); }
      }
    }
  }

  /** The envelope run `i` finds. */
  function EnvelopeBefore(attempts: seq<Attempt>, i: nat): Option<int>
    requires i <= |attempts|
  {
    if i == 0 then None else Leaves(EnvelopeBefore(attempts, i - 1), attempts[i - 1])
  }

  /** The envelope run `i` finds if all runs before it but the first were
      stopped: the start of the last that left one, or the end of the first. */
  function RenewedBefore(attempts: seq<Attempt>, i: nat): Option<int>
    requires i <= |attempts|
  {
    if i == 0 then None
    else if attempts[i - 1].killed then RenewedBefore(attempts, i - 1)
    else Some(if i == 1 then attempts[0].done else attempts[i - 1].at)
  }

  /** The run is not forced and starts within an hour of that. */
  ghost predicate ComesSoon(attempts: seq<Attempt>, i: nat)
    requires i < |attempts|
  {
    && !attempts[i].forced
    && RenewedBefore(attempts, i).Some?
    && attempts[i].at - RenewedBefore(attempts, i).value < HOUR
  }

  lemma StoppedRenews(attempts: seq<Attempt>, i: nat)
    requires i < |attempts| && (i > 0 ==> !GetsPast(attempts, i))
    requires EnvelopeBefore(attempts, i) == RenewedBefore(attempts, i)
    ensures EnvelopeBefore(attempts, i + 1) == RenewedBefore(attempts, i + 1)
  {
    if i > 0 { WholeMinutes(attempts[i].at - EnvelopeBefore(attempts, i).value); }
  }

  lemma {:induction false} StoppedRunsRenew(attempts: seq<Attempt>, i: nat)
    requires i <= |attempts| && forall k :: 0 < k < i ==> !GetsPast(attempts, k)
    ensures EnvelopeBefore(attempts, i) == RenewedBefore(attempts, i)
  {
    if i > 0 {
      StoppedRunsRenew(attempts, i - 1);
      StoppedRenews(attempts, i - 1);
    }
  }

  lemma {:induction false} FrequentRunsRenew(attempts: seq<Attempt>, i: nat)
    requires i <= |attempts| && forall k :: 0 < k < i ==> ComesSoon(attempts, k)
    ensures EnvelopeBefore(attempts, i) == RenewedBefore(attempts, i)
  {
    if i > 0 {
      FrequentRunsRenew(attempts, i - 1);
      if i > 1 { assert ComesSoon(attempts, i - 1); }
      StoppedRenews(attempts, i - 1);
    }
  }

  /** Starvation: no run after the first gets past the cooldown exactly when none
      of them is forced and each starts within an hour of the start of the last
      run before it that left an envelope (of its end, if that is the first),
      however long ago the last implementation was: a stopped run renews the
      cooldown too. */
  lemma StarvedExactlyWhenFrequent(attempts: seq<Attempt>)
    ensures (forall k :: 0 < k < |attempts| ==> !GetsPast(attempts, k)) <==>
            (forall k :: 0 < k < |attempts| ==> ComesSoon(attempts, k))
  {
    if forall k :: 0 < k < |attempts| ==> !GetsPast(attempts, k) {
      forall k | 0 < k < |attempts| ensures ComesSoon(attempts, k) {
        assert !GetsPast(attempts, k);
        StoppedRunsRenew(attempts, k);
      }
    }
    if forall k :: 0 < k < |attempts| ==> ComesSoon(attempts, k) {
      forall k | 0 < k < |attempts| ensures !GetsPast(attempts, k) {
        assert ComesSoon(attempts, k);
        FrequentRunsRenew(attempts, k);
      }
    }
  }

  /** Three runs: the third starts well over an hour after the work of the first
      ended and is stopped all the same, by the envelope of the stopped second. */
  lemma StoppedRunRenewsCooldown() returns (attempts: seq<Attempt>)
    ensures attempts == [Attempt(0, 60, false, false), Attempt(3000, 3060, false, false), Attempt(6000, 6060, false, false)]
    ensures GetsPast(attempts, 0) && !GetsPast(attempts, 1) && !GetsPast(attempts, 2)
    ensures attempts[2].at - attempts[0].done >= 5940
  {
    attempts := [Attempt(0, 60, false, false), Attempt(3000, 3060, false, false), Attempt(6000, 6060, false, false)];
    assert ComesSoon(attempts, 1) && ComesSoon(attempts, 2);
    FrequentRunsRenew(attempts, 1);
    FrequentRunsRenew(attempts, 2);
  }

  /** What run `i` leaves for the next: if it was killed what it found, else the
      end of its work, or its start if it was stopped. */
  lemma LeavesForNext(attempts: seq<Attempt>, i: nat)
    requires i < |attempts|
    ensures EnvelopeBefore(attempts, i + 1) ==
              if attempts[i].killed then EnvelopeBefore(attempts, i)
              else if GetsPast(attempts, i) then Some(attempts[i].done)
              else Some(attempts[i].at)
  {
    var last := EnvelopeBefore(attempts, i);
    if last.Some? { WholeMinutes(attempts[i].at - last.value); }
  }
}
