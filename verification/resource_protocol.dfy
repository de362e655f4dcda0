module ResourceProtocol {
  /**
   The protocol that e2e/framework/resource_manager.go runs between the callers of Acquire, the
   install goroutines and the release goroutines, as a transition system. Every critical section of
   the mutex is one step; so is every wait that ends and every close of a channel.

   A *generation* is one `resourceState` object. Generations are numbered in creation order, so the
   state can also speak about those that have already left the `resources` map.
   */

  import opened Optional

  // A channel of the source that is only ever made, waited on and closed.
  datatype Signal = Unmade | Open | Closed

  datatype InstallResult = Failed(err: string) | Succeeded(cleanup: bool)

  datatype Generation = Generation(
    key: string,
    count: int,
    cleaningUp: Signal,
    ready: bool,          // the `ready` channel is closed
    installed: bool,      // install() has returned and its result is stored
    err: Option<string>,
    cleanup: bool,        // a cleanup function is stored
    cleanups: nat)        // how many times it has run

  /** Where a handle is: still in use, its Cleanup called, or some way through its release
      goroutine. `state` is the generation that the goroutine found in the map. */
  datatype Phase =
    | Held
    | Releasing
    | AwaitReady(state: nat)
    | Cleaning(state: nat)
    | Cleaned(state: nat)
    | Returning
    | Released
    | Done

  // `gen` records which generation the handle was given out for; the release goroutine knows `key` only.
  datatype Handle = Handle(key: string, gen: nat, phase: Phase)

  datatype Caller = Trying(key: string) | Blocked(key: string, on: nat) | Served(handle: nat)

  datatype State = State(
    gens: seq<Generation>,
    resources: map<string, nat>,
    handles: seq<Handle>,
    callers: seq<Caller>)

  datatype Step =
    | Call(key: string)
    | Enter(c: nat)
    | Wake(c: nat)
    | InstallReturns(g: nat, result: InstallResult)
    | CloseReady(g: nat)
    | CallCleanup(h: nat)
    | Release(h: nat)
    | SeeReady(h: nat)
    | RunCleanup(h: nat)
    | Delete(h: nat)
    | CloseReleased(h: nat)
    | CloseDone(h: nat)

  const INITIAL := State([], map[], [], [])

  // ---------------------------------------------------------------------------------------------
  // Steps
  // ---------------------------------------------------------------------------------------------

  /** References are in range, so that a step makes sense at all. */
  ghost predicate Shape(s: State) {
    && (forall k :: k in s.resources ==> s.resources[k] < |s.gens|)
    && (forall h :: 0 <= h < |s.handles| ==> HandleShape(s, s.handles[h]))
    && (forall c :: 0 <= c < |s.callers| ==> CallerShape(s, s.callers[c]))
  }

  predicate HandleShape(s: State, h: Handle) {
    && h.gen < |s.gens|
    && (h.phase.AwaitReady? || h.phase.Cleaning? || h.phase.Cleaned? ==> h.phase.state < |s.gens|)
  }

  predicate CallerShape(s: State, c: Caller) {
    && (c.Blocked? ==> c.on < |s.gens|)
    && (c.Served? ==> c.handle < |s.handles|)
  }

  ghost predicate Enabled(s: State, step: Step)
    requires Shape(s)
  {
    match step
    case Call(_) => true
    case Enter(c) => c < |s.callers| && s.callers[c].Trying?
    case Wake(c) => c < |s.callers| && s.callers[c].Blocked? && s.gens[s.callers[c].on].cleaningUp.Closed?
    case InstallReturns(g, _) => g < |s.gens| && !s.gens[g].installed
    case CloseReady(g) => g < |s.gens| && s.gens[g].installed && !s.gens[g].ready
    case CallCleanup(h) => h < |s.handles|
    case Release(h) => h < |s.handles| && s.handles[h].phase.Releasing?
    case SeeReady(h) => h < |s.handles| && s.handles[h].phase.AwaitReady? && s.gens[s.handles[h].phase.state].ready
    case RunCleanup(h) => h < |s.handles| && s.handles[h].phase.Cleaning?
    case Delete(h) => h < |s.handles| && s.handles[h].phase.Cleaned?
    case CloseReleased(h) => h < |s.handles| && s.handles[h].phase.Returning?
    case CloseDone(h) => h < |s.handles| && s.handles[h].phase.Released?
  }

  function Fresh(key: string): Generation {
    Generation(key, 0, Unmade, false, false, None, false, 0)
  }

  function WithPhase(s: State, h: nat, phase: Phase): State
    requires h < |s.handles|
  {
    s.(handles := s.handles[h := s.handles[h].(phase := phase)])
  }

  function WithGen(s: State, g: nat, gen: Generation): State
    requires g < |s.gens|
  {
    s.(gens := s.gens[g := gen])
  }

  /** The critical section of Acquire: retry later, or take a reference, creating the generation if
      there is none. */
  function ApplyEnter(s: State, c: nat): State
    requires c < |s.callers| && s.callers[c].Trying?
    requires forall k :: k in s.resources ==> s.resources[k] < |s.gens|
  {
    var key := s.callers[c].key;
    if key in s.resources && !s.gens[s.resources[key]].cleaningUp.Unmade? then
      s.(callers := s.callers[c := Blocked(key, s.resources[key])])
    else
      var t := if key in s.resources then s
               else s.(gens := s.gens + [Fresh(key)], resources := s.resources[key := |s.gens|]);
      var g := t.resources[key];
      t.(gens := t.gens[g := t.gens[g].(count := t.gens[g].count + 1)],
         handles := t.handles + [Handle(key, g, Held)],
         callers := t.callers[c := Served(|t.handles|)])
  }

  /** The first critical section of release, looking the generation up by key. */
  function ApplyRelease(s: State, h: nat): State
    requires h < |s.handles|
    requires forall k :: k in s.resources ==> s.resources[k] < |s.gens|
  {
    var key := s.handles[h].key;
    if key !in s.resources then
      WithPhase(s, h, Returning)
    else
      var g := s.resources[key];
      var gen := s.gens[g].(count := s.gens[g].count - 1);
      if gen.count <= 0 then
        WithPhase(WithGen(s, g, gen.(cleaningUp := Open)), h, AwaitReady(g))
      else
        WithPhase(WithGen(s, g, gen), h, Returning)
  }

  function StoreResult(gen: Generation, result: InstallResult): Generation {
    match result
    case Failed(err) => gen.(installed := true, err := Some(err))
    case Succeeded(cleanup) => gen.(installed := true, cleanup := cleanup)
  }

  ghost function Apply(s: State, step: Step): State
    requires Shape(s) && Enabled(s, step)
  {
    match step
    case Call(key) => s.(callers := s.callers + [Trying(key)])
    case Enter(c) => ApplyEnter(s, c)
    case Wake(c) => s.(callers := s.callers[c := Trying(s.callers[c].key)])
    case InstallReturns(g, result) => WithGen(s, g, StoreResult(s.gens[g], result))
    case CloseReady(g) => WithGen(s, g, s.gens[g].(ready := true))
    case CallCleanup(h) => if s.handles[h].phase.Held? then WithPhase(s, h, Releasing) else s
    case Release(h) => ApplyRelease(s, h)
    case SeeReady(h) =>
      var g := s.handles[h].phase.state;
      WithPhase(s, h, if s.gens[g].cleanup then Cleaning(g) else Cleaned(g))
    case RunCleanup(h) =>
      var g := s.handles[h].phase.state;
      WithPhase(WithGen(s, g, s.gens[g].(cleanups := s.gens[g].cleanups + 1)), h, Cleaned(g))
    case Delete(h) =>
      var g := s.handles[h].phase.state;
      WithPhase(WithGen(s, g, s.gens[g].(cleaningUp := Closed)), h, Returning)
        .(resources := s.resources - {s.handles[h].key})
    case CloseReleased(h) => WithPhase(s, h, Released)
    case CloseDone(h) => WithPhase(s, h, Done)
  }

  // ---------------------------------------------------------------------------------------------
  // The invariant
  // ---------------------------------------------------------------------------------------------

  predicate InUse(phase: Phase) {
    phase.Held? || phase.Releasing?
  }

  predicate IsCleaner(h: Handle, g: nat) {
    (h.phase.AwaitReady? || h.phase.Cleaning? || h.phase.Cleaned?) && h.phase.state == g
  }

  /** The handles given out for generation `g` whose release critical section has not run. */
  ghost function Unreleased(s: State, g: nat): set<nat> {
    set h: nat | h < |s.handles| && s.handles[h].gen == g && InUse(s.handles[h].phase)
  }

  ghost predicate Live(s: State, g: nat)
    requires g < |s.gens|
  {
    s.gens[g].key in s.resources && s.resources[s.gens[g].key] == g
  }

  ghost predicate HasCleaner(s: State, g: nat) {
    exists h: nat :: h < |s.handles| && IsCleaner(s.handles[h], g)
  }

  predicate FieldsOk(gen: Generation) {
    && (gen.ready ==> gen.installed)
    && (!gen.installed ==> gen.err.None? && !gen.cleanup)
    && (gen.cleaningUp.Unmade? <==> gen.count > 0)
    && (gen.cleaningUp.Unmade? ==> gen.cleanups == 0)
    && (gen.cleaningUp.Closed? ==> gen.ready && gen.cleanups == if gen.cleanup then 1 else 0)
  }

  ghost predicate GenOk(s: State, g: nat)
    requires g < |s.gens|
  {
    && FieldsOk(s.gens[g])
    && s.gens[g].count == |Unreleased(s, g)|
    && (Live(s, g) <==> !s.gens[g].cleaningUp.Closed?)
    && (s.gens[g].cleaningUp.Open? ==> HasCleaner(s, g))
  }

  predicate HandleOk(s: State, h: Handle) {
    && HandleShape(s, h)
    && s.gens[h.gen].key == h.key
    && (match h.phase
        case AwaitReady(g) => g == h.gen && s.gens[g].cleaningUp.Open? && s.gens[g].cleanups == 0
        case Cleaning(g) =>
          && g == h.gen && s.gens[g].cleaningUp.Open? && s.gens[g].cleanups == 0
          && s.gens[g].ready && s.gens[g].cleanup
        case Cleaned(g) =>
          && g == h.gen && s.gens[g].cleaningUp.Open? && s.gens[g].ready
          && s.gens[g].cleanups == if s.gens[g].cleanup then 1 else 0
        case _ => true)
  }

  predicate CallerOk(s: State, c: Caller) {
    && CallerShape(s, c)
    && (c.Blocked? ==> s.gens[c.on].key == c.key && !s.gens[c.on].cleaningUp.Unmade?)
  }

  ghost predicate OneCleaner(s: State) {
    forall h: nat, h': nat, g: nat | h < |s.handles| && h' < |s.handles| ::
      IsCleaner(s.handles[h], g) && IsCleaner(s.handles[h'], g) ==> h == h'
  }

  ghost predicate Inv(s: State) {
    && (forall k :: k in s.resources ==> s.resources[k] < |s.gens| && s.gens[s.resources[k]].key == k)
    && (forall h :: 0 <= h < |s.handles| ==> HandleOk(s, s.handles[h]))
    && (forall c :: 0 <= c < |s.callers| ==> CallerOk(s, s.callers[c]))
    && (forall g :: 0 <= g < |s.gens| ==> GenOk(s, g))
    && OneCleaner(s)
  }

  /** A handle in use pins its generation: still in the map, cleanup not begun, count positive. */
  lemma {:induction false} InUsePins(s: State, h: nat)
    requires Inv(s) && h < |s.handles| && InUse(s.handles[h].phase)
    ensures var g := s.handles[h].gen;
      && s.gens[g].count > 0 && s.gens[g].cleaningUp.Unmade? && s.gens[g].cleanups == 0
      && s.handles[h].key in s.resources && s.resources[s.handles[h].key] == g
  {
    var g := s.handles[h].gen;
    assert GenOk(s, g);
    assert h in Unreleased(s, g);
    assert HandleOk(s, s.handles[h]);
  }

  /** Handles elsewhere, with the same users of `g`, leave its count right. */
  lemma {:induction false} SameUnreleased(s: State, t: State, g: nat)
    requires |s.handles| == |t.handles|
    requires forall h :: 0 <= h < |s.handles| ==>
      s.handles[h].gen == t.handles[h].gen && InUse(s.handles[h].phase) == InUse(t.handles[h].phase)
    ensures Unreleased(s, g) == Unreleased(t, g)
  {
  }

  lemma {:induction false} KeepsHasCleaner(s: State, t: State, g: nat)
    requires |s.handles| <= |t.handles|
    requires forall h :: 0 <= h < |s.handles| && IsCleaner(s.handles[h], g) ==> IsCleaner(t.handles[h], g)
    requires HasCleaner(s, g)
    ensures HasCleaner(t, g)
  {
    var h: nat :| h < |s.handles| && IsCleaner(s.handles[h], g);
    assert IsCleaner(t.handles[h], g);
  }

  /** Steps that move one handle among phases that keep it in use, or keep it out of use. */
  lemma {:induction false} GensKeptByPhase(s: State, t: State, h: nat)
    requires Inv(s) && h < |s.handles|
    requires |t.handles| == |s.handles| && t == WithPhase(s, h, t.handles[h].phase)
    requires InUse(t.handles[h].phase) == InUse(s.handles[h].phase)
    requires forall g: nat :: IsCleaner(s.handles[h], g) ==> IsCleaner(t.handles[h], g)
    ensures forall g :: 0 <= g < |t.gens| ==> GenOk(t, g)
  {
    forall g: nat | g < |t.gens|
      ensures GenOk(t, g)
    {
      assert GenOk(s, g);
      SameUnreleased(s, t, g);
      if s.gens[g].cleaningUp.Open? {
        KeepsHasCleaner(s, t, g);
      }
    }
  }

  lemma {:induction false} EnterRetryKeeps(s: State, c: nat)
    requires Inv(s) && c < |s.callers| && s.callers[c].Trying?
    requires var key := s.callers[c].key; key in s.resources && !s.gens[s.resources[key]].cleaningUp.Unmade?
    ensures Inv(ApplyEnter(s, c))
  {
    var t := ApplyEnter(s, c);
    forall g: nat | g < |t.gens|
      ensures GenOk(t, g)
    {
      assert GenOk(s, g);
      SameUnreleased(s, t, g);
      if s.gens[g].cleaningUp.Open? {
        KeepsHasCleaner(s, t, g);
      }
    }
  }

  /** Taking a reference to a generation that is present and not being cleaned up. */
  lemma {:induction false} EnterSharesKeeps(s: State, c: nat)
    requires Inv(s) && c < |s.callers| && s.callers[c].Trying?
    requires var key := s.callers[c].key; key in s.resources && s.gens[s.resources[key]].cleaningUp.Unmade?
    ensures Inv(ApplyEnter(s, c))
  {
    var t := ApplyEnter(s, c);
    var key := s.callers[c].key;
    var g0 := s.resources[key];
    forall g: nat | g < |t.gens|
      ensures GenOk(t, g)
    {
      assert GenOk(s, g);
      if g == g0 {
        assert Unreleased(t, g) == Unreleased(s, g) + {|s.handles|};
      } else {
        assert Unreleased(t, g) == Unreleased(s, g);
      }
      if s.gens[g].cleaningUp.Open? {
        KeepsHasCleaner(s, t, g);
      }
    }
    forall h | 0 <= h < |t.handles|
      ensures HandleOk(t, t.handles[h])
    {
      if h < |s.handles| {
        assert HandleOk(s, s.handles[h]);
      }
    }
    forall d | 0 <= d < |t.callers|
      ensures CallerOk(t, t.callers[d])
    {
      assert CallerOk(s, s.callers[d]);
    }
  }

  lemma {:induction false} EnterCreatesKeeps(s: State, c: nat)
    requires Inv(s) && c < |s.callers| && s.callers[c].Trying? && s.callers[c].key !in s.resources
    ensures Inv(ApplyEnter(s, c))
  {
    var t := ApplyEnter(s, c);
    var g0 := |s.gens|;
    forall g: nat | g < |t.gens|
      ensures GenOk(t, g)
    {
      if g == g0 {
        forall h | 0 <= h < |s.handles|
          ensures s.handles[h].gen != g0
        {
          assert HandleOk(s, s.handles[h]);
        }
        assert Unreleased(t, g) == {|s.handles|};
      } else {
        assert GenOk(s, g);
        assert Unreleased(t, g) == Unreleased(s, g);
        if s.gens[g].cleaningUp.Open? {
          KeepsHasCleaner(s, t, g);
        }
      }
    }
    forall h | 0 <= h < |t.handles|
      ensures HandleOk(t, t.handles[h])
    {
      if h < |s.handles| {
        assert HandleOk(s, s.handles[h]);
      }
    }
    forall d | 0 <= d < |t.callers|
      ensures CallerOk(t, t.callers[d])
    {
      assert CallerOk(s, s.callers[d]);
    }
  }

  lemma {:induction false} InstallKeeps(s: State, g0: nat, gen: Generation)
    requires Inv(s) && g0 < |s.gens|
    requires !s.gens[g0].ready
    requires gen == s.gens[g0].(installed := true, ready := gen.ready, err := gen.err, cleanup := gen.cleanup)
    ensures Inv(WithGen(s, g0, gen))
  {
    var t := WithGen(s, g0, gen);
    forall g: nat | g < |t.gens|
      ensures GenOk(t, g)
    {
      assert GenOk(s, g);
      SameUnreleased(s, t, g);
      if s.gens[g].cleaningUp.Open? {
        KeepsHasCleaner(s, t, g);
      }
    }
    forall h | 0 <= h < |t.handles|
      ensures HandleOk(t, t.handles[h])
    {
      assert HandleOk(s, s.handles[h]);
    }
    forall d | 0 <= d < |t.callers|
      ensures CallerOk(t, t.callers[d])
    {
      assert CallerOk(s, s.callers[d]);
    }
  }

  lemma {:induction false} PhaseKeeps(s: State, h: nat, phase: Phase)
    requires Inv(s) && h < |s.handles|
    requires InUse(phase) == InUse(s.handles[h].phase)
    requires HandleOk(s, s.handles[h].(phase := phase))
    requires forall g: nat :: IsCleaner(s.handles[h], g) <==> IsCleaner(s.handles[h].(phase := phase), g)
    ensures Inv(WithPhase(s, h, phase))
  {
    var t := WithPhase(s, h, phase);
    GensKeptByPhase(s, t, h);
    forall i | 0 <= i < |t.handles|
      ensures HandleOk(t, t.handles[i])
    {
      assert HandleOk(s, s.handles[i]);
    }
    forall d | 0 <= d < |t.callers|
      ensures CallerOk(t, t.callers[d])
    {
      assert CallerOk(s, s.callers[d]);
    }
  }

  lemma {:induction false} UnreleasedDrops(s: State, t: State, h: nat, g: nat)
    requires h < |s.handles| && InUse(s.handles[h].phase)
    requires |t.handles| == |s.handles|
    requires forall i :: 0 <= i < |s.handles| && i != h ==> t.handles[i] == s.handles[i]
    requires t.handles[h].gen == s.handles[h].gen && !InUse(t.handles[h].phase)
    ensures |Unreleased(t, g)| == |Unreleased(s, g)| - if g == s.handles[h].gen then 1 else 0
  {
    assert Unreleased(t, g) == Unreleased(s, g) - {h};
    assert g == s.handles[h].gen ==> h in Unreleased(s, g);
  }

  /** One user lets go: the last becomes the one cleaner of the generation. */
  lemma {:induction false} DropKeepsGens(s: State, h: nat, gen: Generation, phase: Phase)
    requires Inv(s) && h < |s.handles| && InUse(s.handles[h].phase)
    requires var was := s.gens[s.handles[h].gen];
      gen == was.(count := was.count - 1, cleaningUp := if was.count == 1 then Open else Unmade)
    requires phase == if gen.count == 0 then AwaitReady(s.handles[h].gen) else Returning
    ensures var t := WithPhase(WithGen(s, s.handles[h].gen, gen), h, phase);
      forall g :: 0 <= g < |t.gens| ==> GenOk(t, g)
  {
    InUsePins(s, h);
    var g0 := s.handles[h].gen;
    var t := WithPhase(WithGen(s, g0, gen), h, phase);
    forall g: nat | g < |t.gens|
      ensures GenOk(t, g)
    {
      assert GenOk(s, g);
      UnreleasedDrops(s, t, h, g);
      if g == g0 {
        assert gen.count == 0 ==> IsCleaner(t.handles[h], g);
      } else if s.gens[g].cleaningUp.Open? {
        KeepsHasCleaner(s, t, g);
      }
    }
  }

  lemma {:induction false} DropKeeps(s: State, h: nat, gen: Generation, phase: Phase)
    requires Inv(s) && h < |s.handles| && InUse(s.handles[h].phase)
    requires var was := s.gens[s.handles[h].gen];
      gen == was.(count := was.count - 1, cleaningUp := if was.count == 1 then Open else Unmade)
    requires phase == if gen.count == 0 then AwaitReady(s.handles[h].gen) else Returning
    ensures Inv(WithPhase(WithGen(s, s.handles[h].gen, gen), h, phase))
  {
    InUsePins(s, h);
    DropKeepsGens(s, h, gen, phase);
    var g0 := s.handles[h].gen;
    var t := WithPhase(WithGen(s, g0, gen), h, phase);
    forall i: nat | i < |s.handles|
      ensures HandleOk(t, t.handles[i]) && !IsCleaner(s.handles[i], g0)
    {
      assert HandleOk(s, s.handles[i]);
    }
    forall d | 0 <= d < |t.callers|
      ensures CallerOk(t, t.callers[d])
    {
      assert CallerOk(s, s.callers[d]);
    }
  }

  lemma {:induction false} ReleaseKeeps(s: State, h: nat)
    requires Inv(s) && h < |s.handles| && s.handles[h].phase.Releasing?
    ensures Inv(ApplyRelease(s, h))
  {
    InUsePins(s, h);
    var g := s.handles[h].gen;
    var count := s.gens[g].count - 1;
    DropKeeps(s, h, s.gens[g].(count := count, cleaningUp := if count == 0 then Open else Unmade),
              if count == 0 then AwaitReady(g) else Returning);
  }

  lemma {:induction false} CleanupKeeps(s: State, h: nat)
    requires Inv(s) && h < |s.handles| && s.handles[h].phase.Cleaning?
    ensures Inv(Apply(s, RunCleanup(h)))
  {
    var t := Apply(s, RunCleanup(h));
    var g0 := s.handles[h].phase.state;
    assert HandleOk(s, s.handles[h]) && IsCleaner(s.handles[h], g0);
    assert forall i: nat | i < |s.handles| :: i != h ==> !IsCleaner(s.handles[i], g0);
    forall g: nat | g < |t.gens|
      ensures GenOk(t, g)
    {
      assert GenOk(s, g);
      SameUnreleased(s, t, g);
      if s.gens[g].cleaningUp.Open? {
        KeepsHasCleaner(s, t, g);
      }
    }
    forall i | 0 <= i < |t.handles|
      ensures HandleOk(t, t.handles[i])
    {
      assert HandleOk(s, s.handles[i]);
    }
    forall d | 0 <= d < |t.callers|
      ensures CallerOk(t, t.callers[d])
    {
      assert CallerOk(s, s.callers[d]);
    }
  }

  lemma {:induction false} DeleteKeeps(s: State, h: nat)
    requires Inv(s) && h < |s.handles| && s.handles[h].phase.Cleaned?
    ensures Inv(Apply(s, Delete(h)))
  {
    var t := Apply(s, Delete(h));
    var g0 := s.handles[h].phase.state;
    assert HandleOk(s, s.handles[h]) && GenOk(s, g0) && IsCleaner(s.handles[h], g0);
    assert forall i: nat | i < |s.handles| :: i != h ==> !IsCleaner(s.handles[i], g0);
    forall g: nat | g < |t.gens|
      ensures GenOk(t, g)
    {
      assert GenOk(s, g);
      SameUnreleased(s, t, g);
      if g != g0 && s.gens[g].cleaningUp.Open? {
        KeepsHasCleaner(s, t, g);
      }
    }
    forall i | 0 <= i < |t.handles|
      ensures HandleOk(t, t.handles[i])
    {
      assert HandleOk(s, s.handles[i]);
    }
    forall d | 0 <= d < |t.callers|
      ensures CallerOk(t, t.callers[d])
    {
      assert CallerOk(s, s.callers[d]);
    }
  }

  /** Every step of every goroutine keeps the invariant. */
  lemma {:induction false} StepKeepsInv(s: State, step: Step)
    requires Inv(s) && Enabled(s, step)
    ensures Inv(Apply(s, step))
  {
    var t := Apply(s, step);
    match step
    case Call(_) =>
      forall g: nat | g < |t.gens| ensures GenOk(t, g) {
        assert GenOk(s, g);
        SameUnreleased(s, t, g);
        if s.gens[g].cleaningUp.Open? { KeepsHasCleaner(s, t, g); }
      }
    case Enter(c) =>
      var key := s.callers[c].key;
      if key !in s.resources {
        EnterCreatesKeeps(s, c);
      } else if s.gens[s.resources[key]].cleaningUp.Unmade? {
        EnterSharesKeeps(s, c);
      } else {
        EnterRetryKeeps(s, c);
      }
    case Wake(c) =>
      forall g: nat | g < |t.gens| ensures GenOk(t, g) {
        assert GenOk(s, g);
        SameUnreleased(s, t, g);
        if s.gens[g].cleaningUp.Open? { KeepsHasCleaner(s, t, g); }
      }
    case InstallReturns(g, result) =>
      assert GenOk(s, g);
      InstallKeeps(s, g, StoreResult(s.gens[g], result));
    case CloseReady(g) => InstallKeeps(s, g, s.gens[g].(ready := true));
    case CallCleanup(h) =>
      if s.handles[h].phase.Held? { PhaseKeeps(s, h, Releasing); }
    case Release(h) => ReleaseKeeps(s, h);
    case SeeReady(h) =>
      assert HandleOk(s, s.handles[h]);
      PhaseKeeps(s, h, t.handles[h].phase);
    case RunCleanup(h) => CleanupKeeps(s, h);
    case Delete(h) => DeleteKeeps(s, h);
    case CloseReleased(h) => PhaseKeeps(s, h, Released);
    case CloseDone(h) => PhaseKeeps(s, h, Done);
  }

  // ---------------------------------------------------------------------------------------------
  // Runs
  // ---------------------------------------------------------------------------------------------

  ghost predicate Runs(s: State, steps: seq<Step>)
    decreases |steps|
  {
    steps == [] || (Shape(s) && Enabled(s, steps[0]) && Runs(Apply(s, steps[0]), steps[1..]))
  }

  ghost function Final(s: State, steps: seq<Step>): State
    requires Runs(s, steps)
    decreases |steps|
  {
    if steps == [] then s else Final(Apply(s, steps[0]), steps[1..])
  }

  lemma {:induction false} RunKeepsInv(s: State, steps: seq<Step>)
    requires Inv(s) && Runs(s, steps)
    ensures Inv(Final(s, steps))
    decreases |steps|
  {
    if steps != [] {
      StepKeepsInv(s, steps[0]);
      RunKeepsInv(Apply(s, steps[0]), steps[1..]);
    }
  }

  /**
   In every interleaving: a generation's count is the number of its handles not yet released; its
   cleanup runs at most once, only after its install finished and with no handle in use; a key has
   at most one generation that is not finished; and a release about to run finds the very
   generation its handle was given out for.
   */
  lemma {:induction false} Safety(steps: seq<Step>)
    requires Runs(INITIAL, steps)
    ensures var s := Final(INITIAL, steps);
      && Shape(s)
      && (forall g | 0 <= g < |s.gens| :: s.gens[g].count == |Unreleased(s, g)|)
      && (forall g | 0 <= g < |s.gens| :: s.gens[g].cleanups <= 1)
      && (forall g | 0 <= g < |s.gens| :: s.gens[g].cleanups == 1 ==> s.gens[g].ready && Unreleased(s, g) == {})
      && (forall g, g' | 0 <= g < |s.gens| && 0 <= g' < |s.gens| ::
            s.gens[g].key == s.gens[g'].key && !s.gens[g].cleaningUp.Closed? && !s.gens[g'].cleaningUp.Closed? ==>
              g == g')
      && (forall h | 0 <= h < |s.handles| :: s.handles[h].phase.Releasing? ==>
            s.handles[h].key in s.resources && s.resources[s.handles[h].key] == s.handles[h].gen)
  {
    RunKeepsInv(INITIAL, steps);
    var s := Final(INITIAL, steps);
    forall h | 0 <= h < |s.handles| && s.handles[h].phase.Releasing?
      ensures s.handles[h].key in s.resources && s.resources[s.handles[h].key] == s.handles[h].gen
    {
      InUsePins(s, h);
    }
    forall g: nat | g < |s.gens|
      ensures s.gens[g].count == |Unreleased(s, g)| && s.gens[g].cleanups <= 1
      ensures s.gens[g].cleanups == 1 ==> s.gens[g].ready && Unreleased(s, g) == {}
    {
      CleanedUpIsIdle(s, g);
    }
    forall g: nat, g': nat | g < |s.gens| && g' < |s.gens| && s.gens[g].key == s.gens[g'].key
      ensures !s.gens[g].cleaningUp.Closed? && !s.gens[g'].cleaningUp.Closed? ==> g == g'
    {
      assert GenOk(s, g) && GenOk(s, g');
    }
    forall h | 0 <= h < |s.handles|
      ensures HandleShape(s, s.handles[h])
    {
      assert HandleOk(s, s.handles[h]);
    }
  }

  lemma {:induction false} CleanedUpIsIdle(s: State, g: nat)
    requires Inv(s) && g < |s.gens|
    ensures s.gens[g].count == |Unreleased(s, g)| && s.gens[g].cleanups <= 1
    ensures s.gens[g].cleanups == 1 ==> s.gens[g].ready && Unreleased(s, g) == {}
  {
    assert GenOk(s, g);
    if s.gens[g].cleaningUp.Open? {
      var h: nat :| h < |s.handles| && IsCleaner(s.handles[h], g);
      assert HandleOk(s, s.handles[h]);
    }
  }

  /** What the cleanup step finds: the install's result is there, nobody uses the generation, and
      its cleanup has not run before. */
  lemma {:induction false} CleanupFindsIdleGeneration(s: State, h: nat)
    requires Inv(s) && Enabled(s, RunCleanup(h))
    ensures var g := s.handles[h].phase.state;
      && g == s.handles[h].gen && s.gens[g].ready && s.gens[g].installed && s.gens[g].cleanup
      && s.gens[g].cleanups == 0 && Unreleased(s, g) == {}
  {
    assert HandleOk(s, s.handles[h]);
    assert GenOk(s, s.handles[h].gen);
  }

  /** What install wrote is never read early nor changed later: every step leaves the result of a
      ready generation alone, and `ready` implies that it was stored. */
  lemma {:induction false} ResultIsStable(s: State, step: Step, g: nat)
    requires Inv(s) && Enabled(s, step) && g < |s.gens| && s.gens[g].ready
    ensures var t := Apply(s, step);
      && g < |t.gens| && s.gens[g].installed && t.gens[g].ready
      && t.gens[g].err == s.gens[g].err && t.gens[g].cleanup == s.gens[g].cleanup
  {
    assert GenOk(s, g);
  }

  // ---------------------------------------------------------------------------------------------
  // What install returned, and who asked for it
  // ---------------------------------------------------------------------------------------------

  /** A generation whose install returned `result`: a failure leaves its error and no cleanup
      function, so none ever runs; a success leaves no error, and the cleanup function it returned,
      if any, has run once when the cleanup is over. */
  predicate HasResult(gen: Generation, result: InstallResult) {
    && gen.installed
    && match result
       case Failed(err) => gen.err == Some(err) && !gen.cleanup && gen.cleanups == 0
       case Succeeded(cleanup) =>
         && gen.err == None && gen.cleanup == cleanup
         && gen.cleanups <= (if cleanup then 1 else 0)
         && (gen.cleaningUp.Closed? ==> gen.cleanups == if cleanup then 1 else 0)
  }

  lemma {:induction false} InstallStoresResult(s: State, g: nat, result: InstallResult)
    requires Inv(s) && Enabled(s, InstallReturns(g, result))
    ensures HasResult(Apply(s, InstallReturns(g, result)).gens[g], result)
  {
    assert GenOk(s, g);
    if s.gens[g].cleaningUp.Open? {
      var h: nat :| h < |s.handles| && IsCleaner(s.handles[h], g);
      assert HandleOk(s, s.handles[h]);
    }
  }

  lemma {:induction false} StepKeepsResult(s: State, step: Step, g: nat, result: InstallResult)
    requires Inv(s) && Enabled(s, step) && g < |s.gens|
    requires HasResult(s.gens[g], result)
    ensures var t := Apply(s, step); g < |t.gens| && HasResult(t.gens[g], result)
  {
    assert GenOk(s, g);
    if step.Release? {
      InUsePins(s, step.h);
    } else if step.RunCleanup? || step.Delete? {
      assert HandleOk(s, s.handles[step.h]);
    }
  }

  lemma {:induction false} RunKeepsResult(s: State, steps: seq<Step>, g: nat, result: InstallResult)
    requires Inv(s) && Runs(s, steps) && g < |s.gens| && HasResult(s.gens[g], result)
    ensures g < |Final(s, steps).gens| && HasResult(Final(s, steps).gens[g], result)
    ensures forall i | 0 <= i < |steps| :: !(steps[i].InstallReturns? && steps[i].g == g)
    decreases |steps|
  {
    if steps != [] {
      StepKeepsInv(s, steps[0]);
      StepKeepsResult(s, steps[0], g, result);
      RunKeepsResult(Apply(s, steps[0]), steps[1..], g, result);
      forall i | 0 < i < |steps|
        ensures !(steps[i].InstallReturns? && steps[i].g == g)
      {
        assert steps[i] == steps[1..][i - 1];
      }
    }
  }

  /** Whatever an install returned in a run is what its generation holds at the end of the run, and
      that install returned only once. */
  lemma {:induction false} RunStoresResult(s: State, steps: seq<Step>, i: nat, g: nat, result: InstallResult)
    requires Inv(s) && Runs(s, steps)
    requires i < |steps| && steps[i] == InstallReturns(g, result)
    ensures g < |Final(s, steps).gens| && HasResult(Final(s, steps).gens[g], result)
    ensures forall j | 0 <= j < |steps| :: steps[j].InstallReturns? && steps[j].g == g ==> j == i
    decreases |steps|
  {
    StepKeepsInv(s, steps[0]);
    var t := Apply(s, steps[0]);
    if i == 0 {
      InstallStoresResult(s, g, result);
      RunKeepsResult(t, steps[1..], g, result);
    } else {
      RunStoresResult(t, steps[1..], i - 1, g, result);
      assert steps[1..][i - 1] == steps[i];
      if steps[0].InstallReturns? && steps[0].g == g {
        InstallStoresResult(s, g, steps[0].result);
        RunKeepsResult(t, steps[1..], g, steps[0].result);
        assert false;
      }
    }
    forall j | 0 < j < |steps|
      ensures steps[j] == steps[1..][j - 1]
    {
    }
  }

  /** An install that failed with `err`: its generation has that error from then on, and nothing is
      ever cleaned up. */
  lemma {:induction false} FailedInstallIsReported(steps: seq<Step>, i: nat, g: nat, err: string)
    requires Runs(INITIAL, steps) && i < |steps| && steps[i] == InstallReturns(g, Failed(err))
    ensures var t := Final(INITIAL, steps);
      g < |t.gens| && t.gens[g].installed && t.gens[g].err == Some(err) && t.gens[g].cleanups == 0
    ensures forall j | 0 <= j < |steps| :: steps[j].InstallReturns? && steps[j].g == g ==> j == i
  {
    RunStoresResult(INITIAL, steps, i, g, Failed(err));
  }

  /** An install that succeeded: no error, and the cleanup function it returned, if it returned one,
      runs exactly once before `cleaningUp` is closed. */
  lemma {:induction false} SuccessfulInstallIsCleanedUp(steps: seq<Step>, i: nat, g: nat, cleanup: bool)
    requires Runs(INITIAL, steps) && i < |steps| && steps[i] == InstallReturns(g, Succeeded(cleanup))
    ensures var t := Final(INITIAL, steps);
      && g < |t.gens| && t.gens[g].installed && t.gens[g].err == None
      && t.gens[g].cleanups <= (if cleanup then 1 else 0)
      && (t.gens[g].cleaningUp.Closed? ==> t.gens[g].cleanups == if cleanup then 1 else 0)
    ensures forall j | 0 <= j < |steps| :: steps[j].InstallReturns? && steps[j].g == g ==> j == i
  {
    RunStoresResult(INITIAL, steps, i, g, Succeeded(cleanup));
  }

  lemma {:induction false} OnlyInstallInstalls(s: State, step: Step, g: nat)
    requires Inv(s) && Enabled(s, step) && !(step.InstallReturns? && step.g == g)
    requires g < |s.gens| ==> !s.gens[g].installed
    ensures var t := Apply(s, step); g < |t.gens| ==> !t.gens[g].installed
  {
    if step.RunCleanup? || step.Delete? {
      assert HandleOk(s, s.handles[step.h]);
    }
  }

  /** Nothing is stored by itself: a generation that is installed had its install return. */
  lemma {:induction false} InstalledHasReturned(s: State, steps: seq<Step>, g: nat) returns (i: nat)
    requires Inv(s) && Runs(s, steps)
    requires g < |s.gens| ==> !s.gens[g].installed
    requires g < |Final(s, steps).gens| && Final(s, steps).gens[g].installed
    ensures i < |steps| && steps[i].InstallReturns? && steps[i].g == g
    decreases |steps|
  {
    var t := Apply(s, steps[0]);
    StepKeepsInv(s, steps[0]);
    if steps[0].InstallReturns? && steps[0].g == g {
      return 0;
    }
    OnlyInstallInstalls(s, steps[0], g);
    var j := InstalledHasReturned(t, steps[1..], g);
    return j + 1;
  }

  /** The keys that Acquire was called with, in order. */
  function Called(steps: seq<Step>): seq<string> {
    if steps == [] then []
    else (if steps[0].Call? then [steps[0].key] else []) + Called(steps[1..])
  }

  predicate CallsFor(s: State, c: Caller, key: string) {
    match c
    case Trying(k) => k == key
    case Blocked(k, _) => k == key
    case Served(h) => h < |s.handles| && s.handles[h].key == key
  }

  /** A served caller holds a handle of a generation of that key. */
  predicate ServedFromKey(s: State, c: Caller, key: string) {
    c.Served? ==>
      c.handle < |s.handles| && s.handles[c.handle].gen < |s.gens| && s.gens[s.handles[c.handle].gen].key == key
  }

  /** Every caller is still after the key that it called with, or has a handle for it; every handle
      belongs to one caller. */
  ghost predicate ServesCalls(s: State, keys: seq<string>) {
    && |s.callers| == |keys|
    && (forall c :: 0 <= c < |keys| ==> CallsFor(s, s.callers[c], keys[c]))
    && (forall c, d :: 0 <= c < |keys| && 0 <= d < |keys| && s.callers[c].Served? && s.callers[c] == s.callers[d] ==>
          c == d)
    && (forall h: nat :: h < |s.handles| ==> Served(h) in s.callers)
  }

  /** What a caller meets in the critical section: a generation under cleanup, which it waits for; or
      a generation that it shares; or none, and then a new one is made. */
  lemma {:induction false} EnterServesUnlessCleaningUp(s: State, c: nat)
    requires Inv(s) && c < |s.callers| && s.callers[c].Trying?
    ensures var t, key := ApplyEnter(s, c), s.callers[c].key;
      var cleaned := key in s.resources && !s.gens[s.resources[key]].cleaningUp.Unmade?;
      && |t.callers| == |s.callers| && (forall d | 0 <= d < |s.callers| && d != c :: t.callers[d] == s.callers[d])
      && (cleaned ==> t.gens == s.gens && t.handles == s.handles && t.resources == s.resources
                      && t.callers[c] == Blocked(key, s.resources[key]))
      && (!cleaned ==> t.callers[c] == Served(|s.handles|) && key in t.resources
                       && t.handles == s.handles + [Handle(key, t.resources[key], Held)]
                       && |t.gens| == |s.gens| + (if key in s.resources then 0 else 1)
                       && t.resources[key] == (if key in s.resources then s.resources[key] else |s.gens|)
                       && t.resources.Keys == s.resources.Keys + {key})
      && (key !in s.resources ==> var gen := t.gens[|s.gens|];
            gen.key == key && gen.count == 1 && !gen.installed && !gen.ready && gen.cleaningUp.Unmade?)
  {
  }

  /** Only calling, entering and waking concern the callers, and no step takes a handle's key away. */
  lemma {:induction false} StepKeepsKeys(s: State, step: Step)
    requires Inv(s) && Enabled(s, step)
    ensures var t := Apply(s, step);
      && (step.Call? || step.Enter? || step.Wake? || t.callers == s.callers)
      && |s.handles| <= |t.handles| && (step.Enter? || |t.handles| == |s.handles|)
      && forall h :: 0 <= h < |s.handles| ==> t.handles[h].key == s.handles[h].key
  {
  }

  lemma {:induction false} EnterServesCalls(s: State, c: nat, keys: seq<string>)
    requires Inv(s) && Enabled(s, Enter(c)) && ServesCalls(s, keys)
    ensures ServesCalls(Apply(s, Enter(c)), keys)
  {
    EnterServesUnlessCleaningUp(s, c);
    var t := ApplyEnter(s, c);
    assert CallsFor(s, s.callers[c], keys[c]);
    forall d, e | 0 <= d < |keys| && 0 <= e < |keys| && t.callers[d].Served? && t.callers[d] == t.callers[e]
      ensures d == e
    {
      assert CallsFor(s, s.callers[d], keys[d]) && CallsFor(s, s.callers[e], keys[e]);
    }
    forall h: nat | h < |t.handles|
      ensures Served(h) in t.callers
    {
      if h < |s.handles| {
        assert Served(h) in s.callers;
        var d :| 0 <= d < |s.callers| && s.callers[d] == Served(h);
        assert t.callers[d] == Served(h);
      } else {
        assert t.callers[c] == Served(h);
      }
    }
    forall d | 0 <= d < |keys|
      ensures CallsFor(t, t.callers[d], keys[d])
    {
      assert CallsFor(s, s.callers[d], keys[d]);
    }
  }

  /** A caller more, or one that was blocked and tries again. */
  lemma {:induction false} CallServesCalls(s: State, step: Step, keys: seq<string>)
    requires Inv(s) && Enabled(s, step) && ServesCalls(s, keys) && (step.Call? || step.Wake?)
    ensures ServesCalls(Apply(s, step), if step.Call? then keys + [step.key] else keys)
  {
    var t := Apply(s, step);
    forall h: nat | h < |t.handles|
      ensures Served(h) in t.callers
    {
      assert Served(h) in s.callers;
      var d :| 0 <= d < |s.callers| && s.callers[d] == Served(h);
      assert t.callers[d] == Served(h);
    }
    forall d | 0 <= d < |keys|
      ensures CallsFor(t, t.callers[d], keys[d])
    {
      assert CallsFor(s, s.callers[d], keys[d]);
    }
  }

  lemma {:induction false} StepServesCalls(s: State, step: Step, keys: seq<string>)
    requires Inv(s) && Enabled(s, step) && ServesCalls(s, keys)
    ensures ServesCalls(Apply(s, step), if step.Call? then keys + [step.key] else keys)
  {
    StepKeepsKeys(s, step);
    if step.Enter? {
      EnterServesCalls(s, step.c, keys);
    } else if step.Call? || step.Wake? {
      CallServesCalls(s, step, keys);
    } else {
      forall d | 0 <= d < |keys|
        ensures CallsFor(Apply(s, step), s.callers[d], keys[d])
      {
        assert CallsFor(s, s.callers[d], keys[d]);
      }
    }
  }

  lemma {:induction false} CalledSplits(steps: seq<Step>, keys: seq<string>)
    requires steps != []
    ensures (if steps[0].Call? then keys + [steps[0].key] else keys) + Called(steps[1..]) == keys + Called(steps)
  {
  }

  lemma {:induction false} RunServesCalls(s: State, steps: seq<Step>, keys: seq<string>)
    requires Inv(s) && Runs(s, steps) && ServesCalls(s, keys)
    ensures ServesCalls(Final(s, steps), keys + Called(steps))
    decreases |steps|
  {
    if steps == [] {
      assert keys + Called(steps) == keys;
    } else {
      StepKeepsInv(s, steps[0]);
      StepServesCalls(s, steps[0], keys);
      CalledSplits(steps, keys);
      RunServesCalls(Apply(s, steps[0]), steps[1..], if steps[0].Call? then keys + [steps[0].key] else keys);
    }
  }

  /** In every interleaving a caller that was served has a handle of its own, for the key it called
      with, of a generation of that key. */
  lemma {:induction false} CallersAreServed(steps: seq<Step>)
    requires Runs(INITIAL, steps)
    ensures ServesCalls(Final(INITIAL, steps), Called(steps))
    ensures forall c | 0 <= c < |Called(steps)| ::
      ServedFromKey(Final(INITIAL, steps), Final(INITIAL, steps).callers[c], Called(steps)[c])
  {
    RunServesCalls(INITIAL, steps, []);
    assert [] + Called(steps) == Called(steps);
    RunKeepsInv(INITIAL, steps);
    var s := Final(INITIAL, steps);
    forall c | 0 <= c < |Called(steps)|
      ensures ServedFromKey(s, s.callers[c], Called(steps)[c])
    {
      assert CallsFor(s, s.callers[c], Called(steps)[c]);
      if s.callers[c].Served? {
        assert HandleOk(s, s.handles[s.callers[c].handle]);
      }
    }
  }

  /** Once the last release has closed `cleaningUp`, the generation is out of the map for good and
      its cleanup function, if it had one, has run exactly once. */
  lemma {:induction false} FinishedForGood(s: State, steps: seq<Step>, g: nat)
    requires Inv(s) && Runs(s, steps) && g < |s.gens| && s.gens[g].cleaningUp.Closed?
    ensures var t := Final(s, steps);
      && g < |t.gens| && t.gens[g] == s.gens[g] && !Live(t, g)
      && t.gens[g].cleanups == if t.gens[g].cleanup then 1 else 0
    decreases |steps|
  {
    assert GenOk(s, g);
    if steps != [] {
      StepKeepsInv(s, steps[0]);
      assert Apply(s, steps[0]).gens[g] == s.gens[g] by { FinishedIsFrozen(s, steps[0], g); }
      FinishedForGood(Apply(s, steps[0]), steps[1..], g);
    }
  }

  lemma {:induction false} FinishedIsFrozen(s: State, step: Step, g: nat)
    requires Inv(s) && Enabled(s, step) && g < |s.gens| && s.gens[g].cleaningUp.Closed?
    ensures var t := Apply(s, step); g < |t.gens| && t.gens[g] == s.gens[g]
  {
    assert GenOk(s, g);
    if step.Release? {
      InUsePins(s, step.h);
    } else if step.RunCleanup? || step.Delete? {
      assert HandleOk(s, s.handles[step.h]);
    }
  }

  // ---------------------------------------------------------------------------------------------
  // Progress
  // ---------------------------------------------------------------------------------------------

  /** How many steps of its own a handle is from closing its `done` channel, at most. */
  function Rank(s: State, h: nat): nat
    requires h < |s.handles| && HandleShape(s, s.handles[h])
  {
    match s.handles[h].phase
    case Held => 9
    case Releasing => 8
    case AwaitReady(g) => if !s.gens[g].installed then 7 else if !s.gens[g].ready then 6 else 5
    case Cleaning(_) => 4
    case Cleaned(_) => 3
    case Returning => 2
    case Released => 1
    case Done => 0
  }

  /** The step that moves handle `h` on; `result` is what its install will return, if still running. */
  function NextStep(s: State, h: nat, result: InstallResult): Step
    requires h < |s.handles| && HandleShape(s, s.handles[h])
  {
    match s.handles[h].phase
    case Held => CallCleanup(h)
    case Releasing => Release(h)
    case AwaitReady(g) =>
      if !s.gens[g].installed then InstallReturns(g, result)
      else if !s.gens[g].ready then CloseReady(g)
      else SeeReady(h)
    case Cleaning(_) => RunCleanup(h)
    case Cleaned(_) => Delete(h)
    case Returning => CloseReleased(h)
    case Released => CloseDone(h)
    case Done => CloseDone(h)
  }

  lemma {:induction false} NextStepLowersRank(s: State, h: nat, result: InstallResult)
    requires Inv(s) && h < |s.handles| && !s.handles[h].phase.Done?
    ensures Enabled(s, NextStep(s, h, result))
    ensures var t := Apply(s, NextStep(s, h, result));
      h < |t.handles| && HandleShape(t, t.handles[h]) && Rank(t, h) < Rank(s, h)
  {
    assert HandleOk(s, s.handles[h]);
    if s.handles[h].phase.AwaitReady? {
      assert GenOk(s, s.handles[h].phase.state);
    }
  }

  lemma {:induction false} RankNeverRises(s: State, step: Step, h: nat)
    requires Inv(s) && Enabled(s, step) && h < |s.handles|
    ensures var t := Apply(s, step); h < |t.handles| && HandleShape(t, t.handles[h]) && Rank(t, h) <= Rank(s, h)
  {
    assert HandleOk(s, s.handles[h]);
    match step
    case Enter(c) => EnterKeepsRank(s, c, h);
    case Release(h') => ReleaseNeverRaisesRank(s, h', h);
    case _ =>
  }

  lemma {:induction false} EnterKeepsRank(s: State, c: nat, h: nat)
    requires Inv(s) && Enabled(s, Enter(c)) && h < |s.handles|
    ensures var t := ApplyEnter(s, c); h < |t.handles| && HandleShape(t, t.handles[h]) && Rank(t, h) == Rank(s, h)
  {
    assert HandleOk(s, s.handles[h]);
  }

  lemma {:induction false} ReleaseNeverRaisesRank(s: State, released: nat, h: nat)
    requires Inv(s) && Enabled(s, Release(released)) && h < |s.handles|
    ensures var t := ApplyRelease(s, released);
      h < |t.handles| && HandleShape(t, t.handles[h]) && Rank(t, h) <= Rank(s, h)
  {
    assert HandleOk(s, s.handles[h]);
    InUsePins(s, released);
  }

  /** A caller waiting on `cleaningUp` is never stuck: the channel is closed, or the one cleaner of
      that generation has a step to take that brings the close nearer. */
  lemma {:induction false} BlockedCallerCanProgress(s: State, c: nat, result: InstallResult)
    requires Inv(s) && c < |s.callers| && s.callers[c].Blocked?
    ensures
      || Enabled(s, Wake(c))
      || exists h: nat :: h < |s.handles| && IsCleaner(s.handles[h], s.callers[c].on) &&
           3 <= Rank(s, h) <= 7 && Enabled(s, NextStep(s, h, result))
  {
    var g := s.callers[c].on;
    assert CallerOk(s, s.callers[c]);
    assert GenOk(s, g);
    if !s.gens[g].cleaningUp.Closed? {
      var h: nat :| h < |s.handles| && IsCleaner(s.handles[h], g);
      NextStepLowersRank(s, h, result);
    }
  }

  /** How many steps of the run are the handle's own next step. */
  ghost function Advances(s: State, steps: seq<Step>, h: nat): nat
    requires Inv(s) && Runs(s, steps) && h < |s.handles|
    decreases |steps|
  {
    if steps == [] then 0
    else
      StepKeepsInv(s, steps[0]);
      RankNeverRises(s, steps[0], h);
      (if !s.handles[h].phase.Done? && exists r :: steps[0] == NextStep(s, h, r) then 1 else 0)
        + Advances(Apply(s, steps[0]), steps[1..], h)
  }

  /** Whatever else runs in between, a handle needs at most `Rank` steps of its own: no other step
      of the system undoes any of them. */
  lemma {:induction false} RunLowersRank(s: State, steps: seq<Step>, h: nat)
    requires Inv(s) && Runs(s, steps) && h < |s.handles|
    ensures var t := Final(s, steps);
      h < |t.handles| && HandleShape(t, t.handles[h]) && Rank(t, h) + Advances(s, steps, h) <= Rank(s, h)
    decreases |steps|
  {
    assert HandleOk(s, s.handles[h]);
    if steps != [] {
      StepKeepsInv(s, steps[0]);
      RankNeverRises(s, steps[0], h);
      if !s.handles[h].phase.Done? && exists r :: steps[0] == NextStep(s, h, r) {
        var r :| steps[0] == NextStep(s, h, r);
        NextStepLowersRank(s, h, r);
      }
      RunLowersRank(Apply(s, steps[0]), steps[1..], h);
    }
  }

  /** The wait is bounded: once the cleaner of a generation has taken five steps of its own, the
      `cleaningUp` channel is closed and everyone blocked on it can go on. */
  lemma {:induction false} BlockedCallerWaitIsBounded(s: State, steps: seq<Step>, c: nat, h: nat)
    requires Inv(s) && Runs(s, steps)
    requires c < |s.callers| && s.callers[c].Blocked?
    requires h < |s.handles| && IsCleaner(s.handles[h], s.callers[c].on)
    requires Advances(s, steps, h) >= 5
    ensures s.callers[c].on < |Final(s, steps).gens| && Final(s, steps).gens[s.callers[c].on].cleaningUp.Closed?
  {
    var g := s.callers[c].on;
    assert HandleOk(s, s.handles[h]);
    RunLowersRank(s, steps, h);
    RunKeepsInv(s, steps);
    CleanerEndsByClosing(s, steps, h, g);
  }

  lemma {:induction false} CleanerEndsByClosing(s: State, steps: seq<Step>, h: nat, g: nat)
    requires Inv(s) && Runs(s, steps) && h < |s.handles|
    requires IsCleaner(s.handles[h], g) || (g < |s.gens| && s.gens[g].cleaningUp.Closed?)
    ensures var t := Final(s, steps);
      && h < |t.handles|
      && (IsCleaner(t.handles[h], g) || (g < |t.gens| && t.gens[g].cleaningUp.Closed?))
    decreases |steps|
  {
    if steps != [] {
      StepKeepsInv(s, steps[0]);
      var t := Apply(s, steps[0]);
      assert HandleOk(s, s.handles[h]);
      if g < |s.gens| && s.gens[g].cleaningUp.Closed? {
        FinishedIsFrozen(s, steps[0], g);
      }
      CleanerEndsByClosing(t, steps[1..], h, g);
    }
  }

  /** A release critical section that runs again for a handle which has already released, with one other
      user left, starts the cleanup under that user. */
  lemma {:induction false} SecondReleaseBreaksInv(s: State, h: nat, user: nat)
    requires Inv(s) && h < |s.handles| && user < |s.handles|
    requires s.handles[h].phase.Returning? && InUse(s.handles[user].phase)
    requires s.handles[user].gen == s.handles[h].gen && s.gens[s.handles[h].gen].count == 1
    ensures var t := ApplyRelease(s, h);
      && t.gens[s.handles[user].gen].cleaningUp.Open? && user in Unreleased(t, s.handles[user].gen)
      && !Inv(t)
  {
    InUsePins(s, user);
    assert HandleOk(s, s.handles[h]) && HandleOk(s, s.handles[user]);
    var t := ApplyRelease(s, h);
    assert user in Unreleased(t, s.handles[user].gen);
    assert !GenOk(t, s.handles[user].gen);
  }

  /** Two callers get a handle each, and the first one releases. */
  function TwoUsers(key: string): seq<Step> {
    [Call(key), Call(key), Enter(0), Enter(1), CallCleanup(0), Release(0)]
  }

  /** The state after so many of these steps. */
  function Stage(key: string, n: nat): State {
    var gen, held := Fresh(key), Handle(key, 0, Held);
    if n == 0 then INITIAL
    else if n == 1 then State([], map[], [], [Trying(key)])
    else if n == 2 then State([], map[], [], [Trying(key), Trying(key)])
    else if n == 3 then State([gen.(count := 1)], map[key := 0], [held], [Served(0), Trying(key)])
    else
      var users := State([gen.(count := 2)], map[key := 0], [held, held], [Served(0), Served(1)]);
      if n == 4 then users
      else if n == 5 then users.(handles := [held.(phase := Releasing), held])
      else users.(handles := [held.(phase := Returning), held], gens := [gen.(count := 1)])
  }

  ghost predicate StageLeadsOn(key: string, n: nat)
    requires n < 6
  {
    var s, step := Stage(key, n), TwoUsers(key)[n];
    Shape(s) && Enabled(s, step) && Apply(s, step) == Stage(key, n + 1)
  }

  lemma {:induction false} CallsAdvance(key: string)
    ensures StageLeadsOn(key, 0) && StageLeadsOn(key, 1)
  {
  }

  lemma {:induction false} FirstEnterAdvances(key: string)
    ensures StageLeadsOn(key, 2)
  {
    var t := ApplyEnter(Stage(key, 2), 0);
    assert t.gens == Stage(key, 3).gens && t.handles == Stage(key, 3).handles;
  }

  lemma {:induction false} SecondEnterAdvances(key: string)
    ensures StageLeadsOn(key, 3)
  {
    var t := ApplyEnter(Stage(key, 3), 1);
    assert t.gens == Stage(key, 4).gens && t.handles == Stage(key, 4).handles;
  }

  lemma {:induction false} ReleaseAdvances(key: string)
    ensures StageLeadsOn(key, 4) && StageLeadsOn(key, 5)
  {
    var t := ApplyRelease(Stage(key, 5), 0);
    assert t.gens == Stage(key, 6).gens && t.handles == Stage(key, 6).handles;
  }

  lemma {:induction false} StagesRun(key: string, n: nat)
    requires n <= 6
    ensures Runs(Stage(key, n), TwoUsers(key)[n..]) && Final(Stage(key, n), TwoUsers(key)[n..]) == Stage(key, 6)
    decreases 6 - n
  {
    if n < 6 {
      CallsAdvance(key);
      FirstEnterAdvances(key);
      SecondEnterAdvances(key);
      ReleaseAdvances(key);
      assert StageLeadsOn(key, n);
      StagesRun(key, n + 1);
      assert TwoUsers(key)[n..][1..] == TwoUsers(key)[n + 1..];
    }
  }

  /** Why each handle needs its `sync.Once`: this run of the system leads to a state in which a second
      release of the first handle would start the cleanup under the user of the second. */
  lemma {:induction false} SecondReleaseCleansUpUnderUser(key: string)
    ensures Runs(INITIAL, TwoUsers(key))
    ensures var s := Final(INITIAL, TwoUsers(key));
      && Inv(s) && |s.handles| == 2 && s.handles[0].phase.Returning? && s.handles[1] == Handle(key, 0, Held)
      && var t := ApplyRelease(s, 0);
         |t.gens| == 1 && t.gens[0].cleaningUp.Open? && t.handles[1] == s.handles[1] && !Inv(t)
  {
    StagesRun(key, 0);
    assert TwoUsers(key)[0..] == TwoUsers(key);
    RunKeepsInv(INITIAL, TwoUsers(key));
    SecondReleaseBreaksInv(Stage(key, 6), 0, 1);
  }
}
