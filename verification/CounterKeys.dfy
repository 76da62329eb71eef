/**
 The age of the key under concurrency: in every interleaving `id_hash` gives no identifier
 under a key that had expired when it was called.
*/
module CounterKeys {
  import opened Text
  import opened HitCounter
  import opened CounterRace

  /** When the key of an epoch was made: at the start, or at one of the rotations. */
  function Created(s: State, base: Key, epoch: nat): int
    requires base.epoch <= epoch <= base.epoch + |s.rotations|
  {
    ([base.created] + s.rotations)[epoch - base.epoch]
  }

  predicate Named(s: State, base: Key, epoch: nat) {
    base.epoch <= epoch <= base.epoch + |s.rotations|
  }

  /** At `t` the key of this epoch had not expired. */
  predicate YoungAt(s: State, base: Key, epoch: nat, t: int) {
    Named(s, base, epoch) && t < Created(s, base, epoch) + VISITOR_KEY_LIFETIME
  }

  /** The identifier a request has from `id_hash`, until it is done with it. */
  function Held(pc: Pc): Option<Id> {
    match pc
    case Lookup(id) => Some(id)
    case Judge(id, _) => Some(id)
    case ReadLogClock(id) => Some(id)
    case Log(id, _) => Some(id)
    case _ => None
  }

  predicate AgeOk(s: State, base: Key, q: Req) {
    && q.entered <= s.mono
    && (q.pc.UseKey? ==> YoungAt(s, base, s.key.epoch, q.entered))
    && (Held(q.pc).Some? ==> YoungAt(s, base, Held(q.pc).value.epoch, q.entered))
  }

  ghost predicate AgeInv(s: State, base: Key) {
    && (forall i :: 0 <= i < |s.rotations| ==> s.rotations[i] <= s.mono)
    && base.created <= s.mono
    && forall r :: r in s.reqs ==> AgeOk(s, base, s.reqs[r])
  }

  /** What a step does to the clock, the key and the rotations. */
  predicate Ages(s: State, s': State) {
    && s.mono <= s'.mono && s.rotations <= s'.rotations
    && (s'.rotations == s.rotations ==> s'.key == s.key)
    && (s'.rotations != s.rotations ==> s'.rotations == s.rotations + [s'.mono])
  }

  lemma CreatedStays(s: State, s': State, base: Key, epoch: nat, t: int)
    requires s.rotations <= s'.rotations && YoungAt(s, base, epoch, t)
    ensures YoungAt(s', base, epoch, t) && Created(s', base, epoch) == Created(s, base, epoch)
  {
  }

  /** A request keeps its place while others move; a rotation only makes the key younger. */
  lemma AgeStays(s: State, s': State, base: Key, q: Req)
    requires AgeOk(s, base, q) && KeyInv(s, base) && KeyInv(s', base) && Ages(s, s')
    ensures AgeOk(s', base, q)
  {
    if q.pc.UseKey? {
      CreatedStays(s, s', base, s.key.epoch, q.entered);
      if s'.rotations != s.rotations {
        assert Created(s', base, s'.key.epoch) == s'.mono;
      }
    }
    if Held(q.pc).Some? {
      CreatedStays(s, s', base, Held(q.pc).value.epoch, q.entered);
    }
  }

  lemma RowStepAges(s: State, r: nat, base: Key)
    requires r in s.reqs && IsRowStep(s.reqs[r].pc) && AgeOk(s, base, s.reqs[r])
    ensures var s' := RowStep(s, r, true); Ages(s, s') && r in s'.reqs && AgeOk(s', base, s'.reqs[r])
  {
  }

  lemma CountStepAges(s: State, r: nat, base: Key)
    requires r in s.reqs && IsCountStep(s.reqs[r].pc) && AgeOk(s, base, s.reqs[r])
    ensures var s' := CountStep(s, r); Ages(s, s') && r in s'.reqs && AgeOk(s', base, s'.reqs[r])
  {
    var s' := CountStep(s, r);
    assert s'.rotations == s.rotations && s'.mono == s.mono && s'.key == s.key;
    if Held(s'.reqs[r].pc).Some? {
      assert Held(s.reqs[r].pc).Some?;
    }
  }

  /** Before the key is used it is seen not to have expired since the call, or is replaced after it. */
  lemma KeyStepAges(s: State, r: nat, base: Key)
    requires r in s.reqs && IsKeyStep(s.reqs[r].pc) && AgeOk(s, base, s.reqs[r]) && KeyInv(s, base)
    ensures var s' := KeyStep(s, r); Ages(s, s') && r in s'.reqs && AgeOk(s', base, s'.reqs[r])
  {
    var s' := KeyStep(s, r);
    if s.reqs[r].pc.RotateKey? {
      assert ([base.created] + s'.rotations)[|s'.rotations|] == s.mono;
    } else {
      assert s'.rotations == s.rotations && s'.key == s.key;
      assert Created(s, base, s.key.epoch) == s.key.created;
    }
  }

  lemma StepAges(s: State, a: Action, base: Key)
    requires KeyInv(s, base) && AgeInv(s, base) && FlagsInv(s) && Enabled(s, a)
    ensures Ages(s, Step(s, a, true))
    ensures a.Advance? || a.Fail? || a.Begin? ==>
      a.r in Step(s, a, true).reqs && AgeOk(Step(s, a, true), base, Step(s, a, true).reqs[a.r])
  {
    hide RowStep, KeyStep, CountStep;
    if a.Advance? {
      if IsRowStep(s.reqs[a.r].pc) {
        RowStepAges(s, a.r, base);
      } else if IsKeyStep(s.reqs[a.r].pc) {
        KeyStepAges(s, a.r, base);
      } else {
        CountStepAges(s, a.r, base);
      }
    } else if a.Fail? {
      assert AgeOk(s, base, s.reqs[a.r]);
    }
  }

  lemma AgeInvStep(s: State, a: Action, base: Key)
    requires KeyInv(s, base) && AgeInv(s, base) && FlagsInv(s) && Enabled(s, a)
    ensures AgeInv(Step(s, a, true), base)
  {
    var s' := Step(s, a, true);
    StepAges(s, a, base);
    KeyInvStep(s, a, base);
    FlagsInvStep(s, a);
    hide RowStep, KeyStep, CountStep, FlagsInv, KeyInv, AgeOk;
    forall k | k in s'.reqs
      ensures AgeOk(s', base, s'.reqs[k])
    {
      if k in s.reqs && s'.reqs[k] == s.reqs[k] {
        AgeStays(s, s', base, s.reqs[k]);
      }
    }
  }

  /** A call that came when the key of an epoch had expired ends with the identifier of a later one. */
  lemma HeldIsLater(s: State, base: Key, r: nat, epoch: nat)
    requires KeyInv(s, base) && AgeInv(s, base) && r in s.reqs && Held(s.reqs[r].pc).Some?
    requires Named(s, base, epoch) && s.reqs[r].entered >= Created(s, base, epoch) + VISITOR_KEY_LIFETIME
    ensures epoch < Held(s.reqs[r].pc).value.epoch <= s.key.epoch
  {
    var held := Held(s.reqs[r].pc).value.epoch;
    assert AgeOk(s, base, s.reqs[r]);
    if held < epoch {
      CreatedGrows(s, base, held, epoch);
    }
  }

  lemma {:induction false} CreatedGrows(s: State, base: Key, early: nat, late: nat)
    requires KeyInv(s, base) && Named(s, base, early) && Named(s, base, late) && early < late
    ensures Created(s, base, late) >= Created(s, base, early) + VISITOR_KEY_LIFETIME
  {
    var times := [base.created] + s.rotations;
    assert times[late - base.epoch] - times[late - base.epoch - 1] >= VISITOR_KEY_LIFETIME;
    if early < late - 1 {
      CreatedGrows(s, base, early, late - 1);
    }
  }

  /** Keys are a lifetime apart, so within one lifetime of a rotation there is no other. */
  lemma OneRotationAtATime(s: State, base: Key, epoch: nat)
    requires KeyInv(s, base) && AgeInv(s, base) && base.epoch < epoch <= s.key.epoch
    requires s.mono < Created(s, base, epoch) + VISITOR_KEY_LIFETIME
    ensures s.key.epoch == epoch
  {
    if epoch < s.key.epoch {
      CreatedGrows(s, base, epoch, epoch + 1);
    }
  }

  lemma HeldIsYoung(s: State, base: Key, r: nat)
    requires AgeInv(s, base) && r in s.reqs && Held(s.reqs[r].pc).Some?
    ensures var epoch := Held(s.reqs[r].pc).value.epoch;
      && base.epoch <= epoch <= base.epoch + |s.rotations|
      && s.reqs[r].entered < ([base.created] + s.rotations)[epoch - base.epoch] + VISITOR_KEY_LIFETIME
  {
    assert AgeOk(s, base, s.reqs[r]);
  }

  lemma ExpiryIsRotatedOnce(s: State, base: Key, r: nat, n: nat)
    requires KeyInv(s, base) && AgeInv(s, base) && n <= |s.rotations|
    requires r in s.reqs && Held(s.reqs[r].pc).Some?
    requires s.reqs[r].entered >= ([base.created] + s.rotations)[n] + VISITOR_KEY_LIFETIME
    ensures n < |s.rotations| && Held(s.reqs[r].pc).value.epoch > base.epoch + n
    ensures s.mono < s.rotations[n] + VISITOR_KEY_LIFETIME ==>
              |s.rotations| == n + 1 && Held(s.reqs[r].pc).value.epoch == base.epoch + n + 1
  {
    assert s.key.epoch == base.epoch + |s.rotations|;
    assert Created(s, base, base.epoch + n) == ([base.created] + s.rotations)[n];
    HeldIsLater(s, base, r, base.epoch + n);
    if s.mono < s.rotations[n] + VISITOR_KEY_LIFETIME {
      assert Created(s, base, base.epoch + n + 1) == s.rotations[n];
      hide KeyInv, AgeInv, Created;
      OneRotationAtATime(s, base, base.epoch + n + 1);
    }
  }

  // ----- The lock -----

  /** The write lock is held by a request that is about to rotate, which needs no lock to go on. */
  predicate LockInv(s: State) {
    s.writer.Some? ==> s.writer.value in s.reqs && s.reqs[s.writer.value].pc.RotateKey?
  }

  lemma LockInvStep(s: State, a: Action)
    requires LockInv(s) && FlagsInv(s) && Enabled(s, a)
    ensures LockInv(Step(s, a, true))
  {
    FlagsInvStep(s, a);
    if a.Advance? && IsKeyStep(s.reqs[a.r].pc) {
      hide RowStep, CountStep, FlagsInv, Message;
    } else {
      OutsideKeyStep(s, a);
      hide RowStep, KeyStep, CountStep, FlagsInv;
    }
  }

  /** Some request can go on as long as one is unfinished. */
  lemma SomeoneCanGoOn(s: State, r: nat)
    requires LockInv(s) && r in s.reqs && !s.reqs[r].pc.Done? && !s.reqs[r].pc.Failed?
    ensures Enabled(s, Advance(r)) || (s.writer.Some? && Enabled(s, Advance(s.writer.value)))
  {
  }
}
