/** The test model of the environment generator: counters for callback registration,
    deregistration and allocated resources, and a callback that asserts the callbacks are
    registered, not deregistered and hold no resources. A failed `ldv_assert` is recorded in
    a flag that is never cleared, and the function is left at once. */
module TestModel {

  /** The three global counters and whether an assertion has failed. */
  datatype Snapshot = Snapshot(registered: int, nonDeregistered: int, probed: int, failed: bool)

  datatype Call = Register | Deregister | ProbeUp | ReleaseDown | InvokeCallback

  /** Whether both assertions of `ldv_invoke_callback` hold in `s`. */
  predicate CallbackAllowed(s: Snapshot) {
    s.nonDeregistered == 0 && s.registered != 0 && s.probed == 0
  }

  /** The effect of one call. */
  function Step(s: Snapshot, c: Call): (r: Snapshot)
    ensures c == InvokeCallback ==> r == s.(failed := s.failed || !CallbackAllowed(s))
    ensures c != InvokeCallback ==> r.failed == s.failed
    ensures s.failed ==> r.failed
  {
    match c
    case Register => s.(registered := 1)
    case Deregister => s.(nonDeregistered := 1)
    case ProbeUp => s.(probed := s.probed + 1)
    case ReleaseDown => s.(probed := s.probed - 1)
    case InvokeCallback =>
      if !(s.nonDeregistered == 0 && s.registered != 0) then s.(failed := true)
      else if s.probed != 0 then s.(failed := true)
      else s
  }

  /** The calls `cs` made one after the other from `s`. */
  function Run(s: Snapshot, cs: seq<Call>): Snapshot {
    if cs == [] then s else Step(Run(s, cs[..|cs| - 1]), cs[|cs| - 1])
  }

  /** All counters are 0 at the beginning. */
  const Initial: Snapshot := Snapshot(0, 0, 0, false)

  class Model {
    var registered: int
    var nonDeregistered: int
    var probed: int
    var failed: bool

    function Now(): Snapshot
      reads this
    {
      Snapshot(registered, nonDeregistered, probed, failed)
    }

    constructor ()
      ensures Now() == Initial
    {
      registered := 0;
      nonDeregistered := 0;
      probed := 0;
      failed := false;
    }

    /** `ldv_invoke_callback`. */
    method InvokeCallback()
      modifies this
      ensures Now() == Step(old(Now()), Call.InvokeCallback)
    {
      if !(nonDeregistered == 0 && registered != 0) {
        failed := true;
        return;
      }
      if probed != 0 {
        failed := true;
      }
    }

    /** `ldv_deregister`: sets `non_deregistered`, whatever its comment says. */
    method Deregister()
      modifies this
      ensures Now() == Step(old(Now()), Call.Deregister)
    {
      nonDeregistered := 1;
    }

    /** `ldv_register`: sets `registered`. */
    method Register()
      modifies this
      ensures Now() == Step(old(Now()), Call.Register)
    {
      registered := 1;
    }

    /** `ldv_probe_up`. */
    method ProbeUp()
      modifies this
      ensures Now() == Step(old(Now()), Call.ProbeUp)
    {
      probed := probed + 1;
    }

    /** `ldv_release_down`. */
    method ReleaseDown()
      modifies this
      ensures Now() == Step(old(Now()), Call.ReleaseDown)
    {
      probed := probed - 1;
    }
  }

  /** How many more resources `cs` allocates than it frees. */
  function Balance(cs: seq<Call>): int {
    if cs == [] then 0
    else Balance(cs[..|cs| - 1]) + (if cs[|cs| - 1] == ProbeUp then 1 else if cs[|cs| - 1] == ReleaseDown then -1 else 0)
  }

  /** `probed` moves by the balance of the calls, so a balanced list leaves it unchanged. */
  lemma {:induction false} ProbedFollowsBalance(s: Snapshot, cs: seq<Call>)
    ensures Run(s, cs).probed == s.probed + Balance(cs)
  {
    if cs != [] {
      ProbedFollowsBalance(s, cs[..|cs| - 1]);
    }
  }

  /** An error once found stays found. */
  lemma {:induction false} FailureSticks(s: Snapshot, cs: seq<Call>)
    requires s.failed
    ensures Run(s, cs).failed
  {
    if cs != [] {
      FailureSticks(s, cs[..|cs| - 1]);
    }
  }

  /** Nothing clears `non_deregistered`: once set it stays set. */
  lemma {:induction false} DeregisteredStays(s: Snapshot, cs: seq<Call>)
    requires s.nonDeregistered != 0
    ensures Run(s, cs).nonDeregistered != 0
  {
    if cs != [] {
      DeregisteredStays(s, cs[..|cs| - 1]);
    }
  }

  /** Without `ldv_register` the `registered` flag keeps its value. */
  lemma {:induction false} UnregisteredStays(s: Snapshot, cs: seq<Call>)
    requires forall i :: 0 <= i < |cs| ==> cs[i] != Register
    ensures Run(s, cs).registered == s.registered
  {
    if cs != [] {
      UnregisteredStays(s, cs[..|cs| - 1]);
    }
  }

  /** Running two lists of calls is running their concatenation. */
  lemma {:induction false} RunAppend(s: Snapshot, a: seq<Call>, b: seq<Call>)
    ensures Run(s, a + b) == Run(Run(s, a), b)
    decreases |b|
  {
    if b == [] {
      assert a + b == a;
    } else {
      RunAppend(s, a, b[..|b| - 1]);
      assert (a + b)[..|a + b| - 1] == a + b[..|b| - 1];
    }
  }

  /** The callback's assertions hold exactly when the callbacks are registered, not
      deregistered, and hold no resources. */
  lemma CallbackPassesIff(s: Snapshot)
    requires !s.failed
    ensures !Step(s, InvokeCallback).failed <==> s.registered != 0 && s.nonDeregistered == 0 && s.probed == 0
  {
  }

  /** Once `ldv_deregister` has run, every later callback fails. */
  lemma CallbackAfterDeregisterFails(s: Snapshot, before: seq<Call>, after: seq<Call>)
    ensures Run(s, before + [Deregister] + after + [InvokeCallback]).failed
  {
    var upTo := before + [Deregister];
    RunAppend(s, upTo + after, [InvokeCallback]);
    RunAppend(s, upTo, after);
    assert upTo[..|upTo| - 1] == before;
    DeregisteredStays(Run(s, upTo), after);
  }

  /** From the start, a callback before any `ldv_register` fails. */
  lemma CallbackBeforeRegisterFails(cs: seq<Call>)
    requires forall i :: 0 <= i < |cs| ==> cs[i] != Register
    ensures Run(Initial, cs + [InvokeCallback]).failed
  {
    RunAppend(Initial, cs, [InvokeCallback]);
    UnregisteredStays(Initial, cs);
  }

  /** Registering, allocating and freeing a resource, then calling back, passes. */
  lemma RegisteredBalancedCallbackPasses()
    ensures !Run(Initial, [Register, ProbeUp, ReleaseDown, InvokeCallback]).failed
  {
    assert Run(Initial, [Register]) == Snapshot(1, 0, 0, false) by {
      assert [Register][..0] == [];
    }
    assert Run(Initial, [Register, ProbeUp]) == Snapshot(1, 0, 1, false) by {
      assert [Register, ProbeUp][..1] == [Register];
    }
    assert Run(Initial, [Register, ProbeUp, ReleaseDown]) == Snapshot(1, 0, 0, false) by {
      assert [Register, ProbeUp, ReleaseDown][..2] == [Register, ProbeUp];
    }
    assert [Register, ProbeUp, ReleaseDown, InvokeCallback][..3] == [Register, ProbeUp, ReleaseDown];
  }
}
