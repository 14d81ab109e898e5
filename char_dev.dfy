/** The rule model of character-device region registration for USB gadgets: one global state
    that registrations set and unregistration clears, checked by `ldv_assert`. A failed
    assertion is the error the verifier looks for: the model records it in a flag that is
    never cleared and leaves the function at once. Nondeterministic values are parameters. */
module CharDev {

  /** `LDV_CHRDEV_ZERO_STATE` and `LDV_CHRDEV_REGISTERED`. */
  datatype ChrdevState = ZeroState | Registered

  /** The global state and whether an assertion has failed. */
  datatype Snapshot = Snapshot(state: ChrdevState, failed: bool)

  const IntMin: int := -0x8000_0000
  const IntMax: int := 0x7fff_ffff

  /** The calls of the model, with the values their nondeterministic choices took:
      `choice` from `ldv_undef_int_nonpositive`, `grantedMajor` from `ldv_undef_int`. */
  datatype Call =
    | RegisterChrdev(major: int, choice: int, grantedMajor: int)
    | RegisterChrdevRegion(choice: int)
    | UnregisterChrdevRegion
    | CheckFinalState

  /** The values `ldv_undef_int_nonpositive` and `ldv_undef_int` with `ldv_assume` can give. */
  predicate Possible(c: Call) {
    match c
    case RegisterChrdev(major, choice, grantedMajor) =>
      IntMin <= major <= IntMax && IntMin <= choice <= 0 && 0 < grantedMajor <= IntMax
    case RegisterChrdevRegion(choice) => IntMin <= choice <= 0
    case _ => true
  }

  /** A registration that succeeds: its nondeterministic status was 0. */
  predicate Registers(c: Call) {
    (c.RegisterChrdev? && c.choice == 0) || (c.RegisterChrdevRegion? && c.choice == 0)
  }

  /** The effect of one call. */
  function Step(s: Snapshot, c: Call): (r: Snapshot)
    ensures c.UnregisterChrdevRegion? ==>
              r == if s.state == Registered then Snapshot(ZeroState, s.failed) else Snapshot(s.state, true)
    ensures c.CheckFinalState? ==> r == Snapshot(s.state, s.failed || s.state != ZeroState)
    ensures (c.RegisterChrdev? || c.RegisterChrdevRegion?) && c.choice != 0 ==> r == s
    ensures Registers(c) ==>
              r == if s.state == ZeroState then Snapshot(Registered, s.failed) else Snapshot(s.state, true)
    ensures s.failed ==> r.failed
  {
    match c
    case RegisterChrdev(_, choice, _) =>
      if choice != 0 then s
      else if s.state != ZeroState then s.(failed := true)
      else s.(state := Registered)
    case RegisterChrdevRegion(choice) =>
      if choice != 0 then s
      else if s.state != ZeroState then s.(failed := true)
      else s.(state := Registered)
    case UnregisterChrdevRegion =>
      if s.state != Registered then s.(failed := true) else s.(state := ZeroState)
    case CheckFinalState =>
      if s.state != ZeroState then s.(failed := true) else s
  }

  /** The value `ldv_register_chrdev` returns when its assertion holds. */
  function RegisterChrdevResult(major: int, choice: int, grantedMajor: int): (r: int)
    requires choice <= 0 && grantedMajor > 0
    ensures choice == 0 && major == 0 ==> r > 0
    ensures choice == 0 && major != 0 ==> r == 0
    ensures choice != 0 ==> r < 0
  {
    if choice == 0 && major == 0 then grantedMajor else choice
  }

  /** The calls `cs` made one after the other from `s`. */
  function Run(s: Snapshot, cs: seq<Call>): Snapshot {
    if cs == [] then s else Step(Run(s, cs[..|cs| - 1]), cs[|cs| - 1])
  }

  const Initial: Snapshot := Snapshot(ZeroState, false)

  /** The model with its one global variable. */
  class Model {
    var state: ChrdevState
    var failed: bool

    function Now(): Snapshot
      reads this
    {
      Snapshot(state, failed)
    }

    /** The region is not registered at the beginning. */
    constructor ()
      ensures Now() == Initial
    {
      state := ZeroState;
      failed := false;
    }

    /** `ldv_register_chrdev`. */
    method RegisterChrdev(major: int, choice: int, grantedMajor: int) returns (r: int)
      requires Possible(Call.RegisterChrdev(major, choice, grantedMajor))
      modifies this
      ensures Now() == Step(old(Now()), Call.RegisterChrdev(major, choice, grantedMajor))
      ensures !failed ==> r == RegisterChrdevResult(major, choice, grantedMajor)
    {
      var isReg := choice;
      if isReg == 0 {
        if state != ZeroState {
          failed := true;
          return isReg;
        }
        state := Registered;
        if major == 0 {
          isReg := grantedMajor;
        }
      }
      return isReg;
    }

    /** `ldv_register_chrdev_region`. */
    method RegisterChrdevRegion(choice: int) returns (r: int)
      requires Possible(Call.RegisterChrdevRegion(choice))
      modifies this
      ensures Now() == Step(old(Now()), Call.RegisterChrdevRegion(choice))
      ensures r == choice
    {
      var isReg := choice;
      if isReg == 0 {
        if state != ZeroState {
          failed := true;
          return isReg;
        }
        state := Registered;
      }
      return isReg;
    }

    /** `ldv_unregister_chrdev_region`. */
    method UnregisterChrdevRegion()
      modifies this
      ensures Now() == Step(old(Now()), Call.UnregisterChrdevRegion)
    {
      if state != Registered {
        failed := true;
        return;
      }
      state := ZeroState;
    }

    /** `ldv_check_final_state`. */
    method CheckFinalState()
      modifies this
      ensures Now() == Step(old(Now()), Call.CheckFinalState)
    {
      if state != ZeroState {
        failed := true;
      }
    }
  }

  /** Running two lists of calls is running their concatenation. */
  lemma {:induction false} RunAppend(s: Snapshot, a: seq<Call>, b: seq<Call>)
    ensures Run(s, a + b) == Run(Run(s, a), b)
    decreases |b|
  {
    if b == [] {
      assert a + b == a;
    } else {
      RunAppend(s, a, b[..|b| - 1]);
      assert (a + b)[..|a + b| - 1] == a + b[..|b| - 1];
    }
  }

  /** Without an unregistration a registered region stays registered, whatever else fails. */
  lemma {:induction false} StaysRegistered(s: Snapshot, cs: seq<Call>)
    requires s.state == Registered
    requires forall i :: 0 <= i < |cs| ==> !cs[i].UnregisterChrdevRegion?
    ensures Run(s, cs).state == Registered
    ensures s.failed ==> Run(s, cs).failed
  {
    if cs != [] {
      StaysRegistered(s, cs[..|cs| - 1]);
    }
  }

  /** An error once found stays found. */
  lemma {:induction false} FailureSticks(s: Snapshot, cs: seq<Call>)
    requires s.failed
    ensures Run(s, cs).failed
  {
    if cs != [] {
      FailureSticks(s, cs[..|cs| - 1]);
    }
  }

  /** Two successful registrations with no unregistration between them violate the assertion,
      from any starting state. */
  lemma DoubleRegistrationFails(s: Snapshot, cs: seq<Call>, i: nat, j: nat)
    requires i < j < |cs|
    requires Registers(cs[i]) && Registers(cs[j])
    requires forall k :: i < k < j ==> !cs[k].UnregisterChrdevRegion?
    ensures Run(s, cs[..j + 1]).failed
  {
    var a := cs[..i + 1];
    var mid := cs[i + 1..j];
    assert cs[..j + 1] == a + mid + [cs[j]];
    RunAppend(s, a + mid, [cs[j]]);
    RunAppend(s, a, mid);
    var afterFirst := Run(s, a);
    assert afterFirst == Step(Run(s, cs[..i]), cs[i]) by {
      assert a[..|a| - 1] == cs[..i];
    }
    if afterFirst.failed {
      FailureSticks(afterFirst, mid);
    } else {
      assert forall k :: 0 <= k < |mid| ==> mid[k] == cs[i + 1 + k];
      StaysRegistered(afterFirst, mid);
    }
  }

  /** The final check passes exactly in the unregistered state. */
  lemma FinalCheckPasses(s: Snapshot)
    requires !s.failed
    ensures !Step(s, CheckFinalState).failed <==> s.state == ZeroState
  {
  }

  /** Registering, unregistering and checking from the start finds no error. */
  lemma BalancedRegistrationPasses()
    ensures !Run(Initial, [RegisterChrdevRegion(0), UnregisterChrdevRegion, CheckFinalState]).failed
  {
    var cs := [RegisterChrdevRegion(0), UnregisterChrdevRegion, CheckFinalState];
    assert cs[..2][..1] == [RegisterChrdevRegion(0)];
    assert cs[..2] == [RegisterChrdevRegion(0), UnregisterChrdevRegion];
    assert [RegisterChrdevRegion(0)][..0] == [];
  }
}
