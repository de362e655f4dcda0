/**
 The shared objects of e2e/framework/resource_manager.go and the atomic actions of its goroutines,
 each proved to be the protocol's step of the same name.

 A generation's `cleaningUp` channel is made at most once (an invariant of the protocol), so a
 caller that captured the channel is identified with one that remembers the generation.
 */
module SharedResources {
  import opened Optional
  import opened ResourceProtocol

  /** One `resourceState`. `id`, `key`, `installed` and `cleanups` are bookkeeping that the source
      has no field for. */
  class ResourceState {
    const id: nat
    const key: string
    var cleanup: bool
    var ready: Signal
    var cleaningUp: Signal
    var err: Option<string>
    var count: int
    var installed: bool
    var cleanups: nat

    constructor (id: nat, key: string)
      ensures this.id == id && this.key == key && ready == Open && View() == Fresh(key)
    {
      this.id, this.key := id, key;
      ready, cleaningUp := Open, Unmade;
      cleanup, err, count := false, None, 0;
      installed, cleanups := false, 0;
    }

    ghost function View(): Generation
      reads this
    {
      Generation(key, count, cleaningUp, ready.Closed?, installed, err, cleanup, cleanups)
    }

    // Closing a channel twice panics, hence the preconditions.

    method CloseReady()
      requires ready.Open?
      modifies `ready
      ensures ready.Closed?
    {
      ready := Closed;
    }

    method CloseCleaningUp()
      requires cleaningUp.Open?
      modifies `cleaningUp
      ensures cleaningUp.Closed?
    {
      cleaningUp := Closed;
    }
  }

  class ResourceManager {
    var resources: map<string, ResourceState>
    var states: seq<ResourceState>  // every generation ever created
    var handles: seq<Handle>
    var callers: seq<Caller>

    ghost predicate Wired()
      reads this, states
    {
      && (forall g :: 0 <= g < |states| ==> states[g].id == g && !states[g].ready.Unmade?)
      && (forall k :: k in resources ==> resources[k] in states)
    }

    ghost function View(): State
      reads this, states
    {
      State(seq(|states|, g requires 0 <= g < |states| reads this, states => states[g].View()),
            map k | k in resources :: resources[k].id,
            handles, callers)
    }

    ghost predicate Valid()
      reads this, states
    {
      Wired() && Inv(View())
    }

    constructor ()
      ensures Valid() && View() == INITIAL
    {
      resources, states, handles, callers := map[], [], [], [];
    }

    lemma {:induction false} LookupIsInStates(k: string)
      requires Wired() && k in resources
      ensures resources[k].id < |states| && states[resources[k].id] == resources[k]
    {
    }

    /** A new caller of Acquire. */
    method Call(key: string)
      requires Valid()
      modifies this
      ensures Valid() && View() == Apply(old(View()), Step.Call(key))
      ensures resources == old(resources) && states == old(states)
    {
      ghost var before := View();
      StepKeepsInv(before, Step.Call(key));
      callers := callers + [Trying(key)];
      assert View().gens == before.gens;
      assert View() == Apply(before, Step.Call(key));
    }

    /** A new generation for a key that has none. */
    method Create(key: string)
      requires Wired()
      modifies this
      ensures Wired() && |states| == |old(states)| + 1 && states[..|old(states)|] == old(states)
      ensures fresh(states[|old(states)|])
      ensures View() == old(View()).(gens := old(View()).gens + [Fresh(key)],
                                     resources := old(View()).resources[key := |old(states)|])
    {
      ghost var before := View();
      var state := new ResourceState(|states|, key);
      states := states + [state];
      resources := resources[key := state];
      assert View().gens == before.gens + [Fresh(key)];
      assert View().resources == before.resources[key := |old(states)|];
    }

    /** `state.count++`, and a handle for the caller. */
    method TakeReference(c: nat, key: string)
      requires Wired() && c < |callers| && key in resources
      modifies this, resources[key]
      ensures Wired() && states == old(states)
      ensures var was, g := old(View()), old(View()).resources[key];
        && g < |was.gens|
        && View() == was.(gens := was.gens[g := was.gens[g].(count := was.gens[g].count + 1)],
                          handles := was.handles + [Handle(key, g, Held)],
                          callers := was.callers[c := Served(|was.handles|)])
    {
      ghost var before := View();
      var state := resources[key];
      LookupIsInStates(key);
      state.count := state.count + 1;
      callers := callers[c := Served(|handles|)];
      handles := handles + [Handle(key, state.id, Held)];
      assert View().gens == before.gens[state.id := before.gens[state.id].(count := before.gens[state.id].count + 1)];
    }

    method LookUpAndCount(c: nat) returns (served: bool)
      requires Wired() && c < |callers| && callers[c].Trying?
      modifies this, states
      ensures Wired()
      ensures forall k :: k in old(View()).resources ==> old(View()).resources[k] < |old(View()).gens|
      ensures View() == ApplyEnter(old(View()), c)
      ensures served <==> callers[c].Served?
    {
      ghost var before := View();
      var key := callers[c].key;
      if key in resources && !resources[key].cleaningUp.Unmade? {
        LookupIsInStates(key);
        callers := callers[c := Blocked(key, resources[key].id)];
        assert View().gens == before.gens;
        return false;
      }
      if key !in resources {
        Create(key);
      } else {
        LookupIsInStates(key);
      }
      TakeReference(c, key);
      return true;
    }

    /** The critical section of Acquire: `served` unless a cleanup of that key is under way. */
    method Enter(c: nat) returns (served: bool)
      requires Valid() && c < |callers| && callers[c].Trying?
      modifies this, states
      ensures Valid() && View() == Apply(old(View()), Step.Enter(c))
      ensures served <==> callers[c].Served?
    {
      StepKeepsInv(View(), Step.Enter(c));
      served := LookUpAndCount(c);
    }

    /** `cleaningUp` has been closed: the caller goes round its loop again. */
    method Wake(c: nat)
      requires Valid() && Enabled(View(), Step.Wake(c))
      modifies this
      ensures Valid() && View() == Apply(old(View()), Step.Wake(c))
    {
      ghost var before := View();
      StepKeepsInv(before, Step.Wake(c));
      callers := callers[c := Trying(callers[c].key)];
      assert View().gens == before.gens;
    }

    // The install goroutine: store what install() returned, then (deferred) close `ready`.

    method InstallReturns(g: nat, result: InstallResult)
      requires Valid() && Enabled(View(), Step.InstallReturns(g, result))
      modifies states
      ensures Valid() && View() == Apply(old(View()), Step.InstallReturns(g, result))
    {
      ghost var before := View();
      StepKeepsInv(before, Step.InstallReturns(g, result));
      match result {
        case Failed(err) => states[g].err := Some(err);
        case Succeeded(cleanup) => states[g].cleanup := cleanup;
      }
      states[g].installed := true;
      assert View().gens == Apply(before, Step.InstallReturns(g, result)).gens;
    }

    method CloseReady(g: nat)
      requires Valid() && Enabled(View(), Step.CloseReady(g))
      modifies states
      ensures Valid() && View() == Apply(old(View()), Step.CloseReady(g))
    {
      ghost var before := View();
      StepKeepsInv(before, Step.CloseReady(g));
      states[g].CloseReady();
      assert View().gens == Apply(before, Step.CloseReady(g)).gens;
    }

    /** Wait: blocks until `ready` is closed, then reads the install's error. After any run of the
        protocol that is what the install of that generation returned, whenever it did. */
    method Wait(h: nat, ghost steps: seq<Step>) returns (err: Option<string>)
      requires Valid() && h < |handles| && View().gens[handles[h].gen].ready
      requires Runs(INITIAL, steps) && View() == Final(INITIAL, steps)
      ensures err == View().gens[handles[h].gen].err
      ensures exists result :: Step.InstallReturns(handles[h].gen, result) in steps
      ensures forall result :: Step.InstallReturns(handles[h].gen, result) in steps ==>
        (result.Failed? ==> err == Some(result.err)) && (result.Succeeded? ==> err == None)
    {
      var g := handles[h].gen;
      assert GenOk(View(), g);
      ghost var i := InstalledHasReturned(INITIAL, steps, g);
      assert steps[i] == Step.InstallReturns(g, steps[i].result);
      RunStoresResult(INITIAL, steps, i, g, steps[i].result);
      err := states[g].err;
    }

    method SetPhase(h: nat, phase: Phase)
      requires h < |handles|
      modifies `handles
      ensures View() == WithPhase(old(View()), h, phase)
    {
      handles := handles[h := handles[h].(phase := phase)];
    }

    /** Cleanup: only the first call of a handle starts its release goroutine. */
    method CallCleanup(h: nat)
      requires Valid() && h < |handles|
      modifies this
      ensures Valid() && View() == Apply(old(View()), Step.CallCleanup(h))
    {
      StepKeepsInv(View(), Step.CallCleanup(h));
      if handles[h].phase.Held? {
        SetPhase(h, Releasing);
      }
    }

    method DropReference(h: nat)
      requires Wired() && h < |handles|
      modifies this, states
      ensures Wired()
      ensures forall k :: k in old(View()).resources ==> old(View()).resources[k] < |old(View()).gens|
      ensures View() == ApplyRelease(old(View()), h)
    {
      ghost var before := View();
      var key := handles[h].key;
      if key !in resources {
        SetPhase(h, Returning);
        return;
      }
      LookupIsInStates(key);
      var state := resources[key];
      state.count := state.count - 1;
      if state.count <= 0 {
        state.cleaningUp := Open;
        SetPhase(h, AwaitReady(state.id));
      } else {
        SetPhase(h, Returning);
      }
      assert View().gens == ApplyRelease(before, h).gens;
    }

    /** The first critical section of release. */
    method Release(h: nat)
      requires Valid() && Enabled(View(), Step.Release(h))
      modifies this, states
      ensures Valid() && View() == Apply(old(View()), Step.Release(h))
    {
      StepKeepsInv(View(), Step.Release(h));
      DropReference(h);
    }

    /** `ready` is closed: go on to the cleanup function, if there is one. */
    method SeeReady(h: nat)
      requires Valid() && Enabled(View(), Step.SeeReady(h))
      modifies this
      ensures Valid() && View() == Apply(old(View()), Step.SeeReady(h))
    {
      StepKeepsInv(View(), Step.SeeReady(h));
      var state := states[handles[h].phase.state];
      SetPhase(h, if state.cleanup then Cleaning(state.id) else Cleaned(state.id));
    }

    method RunCleanup(h: nat)
      requires Valid() && Enabled(View(), Step.RunCleanup(h))
      modifies this, states
      ensures Valid() && View() == Apply(old(View()), Step.RunCleanup(h))
    {
      ghost var before := View();
      StepKeepsInv(before, Step.RunCleanup(h));
      var state := states[handles[h].phase.state];
      state.cleanups := state.cleanups + 1;
      SetPhase(h, Cleaned(state.id));
      assert View().gens == Apply(before, Step.RunCleanup(h)).gens;
    }

    /** The second critical section of release: out of the map, and wake the blocked callers. */
    method Delete(h: nat)
      requires Valid() && Enabled(View(), Step.Delete(h))
      modifies this, states
      ensures Valid() && View() == Apply(old(View()), Step.Delete(h))
    {
      ghost var before := View();
      StepKeepsInv(before, Step.Delete(h));
      assert HandleOk(before, handles[h]);
      var state := states[handles[h].phase.state];
      resources := resources - {handles[h].key};
      state.CloseCleaningUp();
      SetPhase(h, Returning);
      assert View().gens == Apply(before, Step.Delete(h)).gens;
      assert View().resources == Apply(before, Step.Delete(h)).resources;
    }

    // The two `done` channels, each closed by the goroutine that made it its last act.

    method CloseReleased(h: nat)
      requires Valid() && Enabled(View(), Step.CloseReleased(h))
      modifies this
      ensures Valid() && View() == Apply(old(View()), Step.CloseReleased(h))
    {
      StepKeepsInv(View(), Step.CloseReleased(h));
      SetPhase(h, Released);
    }

    method CloseDone(h: nat)
      requires Valid() && Enabled(View(), Step.CloseDone(h))
      modifies this
      ensures Valid() && View() == Apply(old(View()), Step.CloseDone(h))
    {
      StepKeepsInv(View(), Step.CloseDone(h));
      SetPhase(h, Done);
    }
  }
}
