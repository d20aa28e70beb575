/**
  What one start, with everything it launches, may touch: only names that extend its own, and
  nothing that was running before.
*/
module PlaybookFrames {
  import opened Prelude
  import opened Playbooks

  /** `n` is `stem` or extends it. */
  predicate Under(stem: string, n: string) {
    stem <= n
  }

  ghost predicate RowKept(s: State, s': State, n: string) {
    (n in s.rows <==> n in s'.rows) && (n in s.rows ==> s'.rows[n] == s.rows[n])
  }

  /** Running workers and their rows and callbacks are as before; the rest changed only under `stem`. */
  ghost predicate Frames(s: State, s': State, stem: string) {
    && (forall n :: n in s.workers ==> n in s'.workers && s'.workers[n] == s.workers[n])
    && (forall n :: n in s'.workers && n !in s.workers ==> Under(stem, n))
    && (forall n :: n in s.workers || !Under(stem, n) ==> RowKept(s, s', n))
    && (forall u :: u in s'.callbacks ==> u in s.callbacks && s'.callbacks[u] == s.callbacks[u])
    && (forall u :: u in s.callbacks && u !in s'.callbacks ==>
          s.callbacks[u].source !in s.workers && Under(stem, s.callbacks[u].source))
  }

  lemma FramesCompose(s: State, s1: State, s2: State, stem: string)
    requires Frames(s, s1, stem) && Frames(s1, s2, stem)
    ensures Frames(s, s2, stem)
  {
    forall n | n in s.workers || !Under(stem, n)
      ensures RowKept(s, s2, n)
    {
      assert RowKept(s, s1, n) && RowKept(s1, s2, n);
    }
  }

  lemma FramesWiden(s: State, s': State, stem: string, longer: string)
    requires stem <= longer && Frames(s, s', longer)
    ensures Frames(s, s', stem)
  {
    assert forall n :: Under(longer, n) ==> Under(stem, n);
  }

  lemma SubNamesExtend(main: string, ident: Ident)
    ensures main <= main + "_" <= SubName(main, ident)
    ensures !(main + "_" <= main) && SubName(main, ident) != main
  {
  }

  lemma DeleteFrames(env: Env, s: State, name: string)
    requires name !in s.workers
    ensures Frames(s, Delete(env, s, name).0, name)
    ensures Delete(env, s, name).0.workers == s.workers
  {
    assert s.workers - {name} == s.workers;
  }

  lemma PreparedFrames(cat: Catalog, env: Env, s: State, name: string, ident: Ident)
    ensures var (ready, ok) := Prepared(cat, env, s, name, ident);
            && Frames(s, ready, name)
            && ready.workers == s.workers
            && (ok ==> name !in s.workers && ident in cat && name !in ready.rows)
  {
    if name !in s.workers {
      DeleteFrames(env, s, name);
    }
  }

  /** Saving the row and inserting the worker of a name that is not running. */
  lemma InsertFrames(s: State, name: string, row: Row, worker: Worker)
    requires name !in s.workers
    ensures Frames(s, s.(rows := s.rows[name := row], workers := s.workers[name := worker]), name)
  {
  }

  /**
    A start, successful or not, frames its own name: nested launches never touch an enclosing
    start's row or worker, and nothing live is overwritten.
  */
  lemma {:induction false} StartFrames(cat: Catalog, env: Env, fuel: nat, s: State, name: string, args: StartArgs)
    requires Start(cat, env, fuel, s, name, args).Finished?
    ensures var o := Start(cat, env, fuel, s, name, args);
            && Frames(s, o.state, name)
            && (o.value.Some? ==> name !in s.workers && name in o.state.workers)
    decreases fuel, 0
  {
    var (ready, ok) := Prepared(cat, env, s, name, args.playbook);
    PreparedFrames(cat, env, s, name, args.playbook);
    if ok {
      var spec := cat[args.playbook];
      BuildFrames(cat, env, fuel - 1, ready, name, spec.interconnect);
      var built := Build(cat, env, fuel - 1, ready, name, spec.interconnect);
      FramesWiden(ready, built.state, name, name + "_");
      FramesCompose(s, ready, built.state, name);
      var o := Start(cat, env, fuel, s, name, args);
      if o.value.Some? {
        assert name !in built.state.workers;
        InsertFrames(built.state, name, o.state.rows[name], o.state.workers[name]);
        FramesCompose(s, built.state, o.state, name);
      }
    }
  }

  lemma {:induction false} FindOrLaunchFrames(cat: Catalog, env: Env, fuel: nat, s: State, main: string, ident: Ident)
    requires FindOrLaunch(cat, env, fuel, s, main, ident).Finished?
    ensures Frames(s, FindOrLaunch(cat, env, fuel, s, main, ident).state, main + "_")
    decreases fuel, 1
  {
    if Hosts(s, ident) == {} {
      var sub := SubName(main, ident);
      SubNamesExtend(main, ident);
      StartFrames(cat, env, fuel, s, sub, DefaultArgs(ident));
      FramesWiden(s, Start(cat, env, fuel, s, sub, DefaultArgs(ident)).state, main + "_", sub);
    }
  }

  lemma {:induction false} BuildFrames(cat: Catalog, env: Env, fuel: nat, s: State, main: string,
                                       deps: seq<(string, Ident)>)
    requires Build(cat, env, fuel, s, main, deps).Finished?
    ensures var o := Build(cat, env, fuel, s, main, deps);
            && Frames(s, o.state, main + "_")
            && (main !in s.workers ==> main !in o.state.workers)
    decreases fuel, 2, |deps|
  {
    if deps != [] {
      FindOrLaunchFrames(cat, env, fuel, s, main, deps[0].1);
      var first := FindOrLaunch(cat, env, fuel, s, main, deps[0].1);
      if first.value.Some? {
        BuildFrames(cat, env, fuel, first.state, main, deps[1..]);
        FramesCompose(s, first.state, Build(cat, env, fuel, first.state, main, deps[1..]).state, main + "_");
      }
    }
    assert !(main + "_" <= main);
  }

  /** The same for a resume; its check for a concurrent start of the name cannot fire. */
  lemma ResumeFrames(cat: Catalog, env: Env, fuel: nat, s: State, name: string)
    requires Resume(cat, env, fuel, s, name).Finished?
    ensures var o := Resume(cat, env, fuel, s, name);
            && Frames(s, o.state, name)
            && (o.value.Some? ==> name !in s.workers && name in s.rows && name in o.state.workers)
            && (name !in s.workers && o.value.None? ==> name !in o.state.workers && RowKept(s, o.state, name))
  {
    var o := Resume(cat, env, fuel, s, name);
    if name !in s.workers && name in s.rows && s.rows[name].config.playbook in cat {
      var spec := cat[s.rows[name].config.playbook];
      var built := Build(cat, env, fuel, s, name, spec.interconnect);
      if built.Finished? {
        BuildFrames(cat, env, fuel, s, name, spec.interconnect);
        FramesWiden(s, built.state, name, name + "_");
        assert RowKept(s, built.state, name);
        if o.value.Some? {
          InsertFrames(built.state, name, o.state.rows[name], o.state.workers[name]);
          assert o.state == built.state.(rows := built.state.rows[name := o.state.rows[name]],
                                         workers := built.state.workers[name := o.state.workers[name]]);
          FramesCompose(s, built.state, o.state, name);
        }
      }
    }
  }
}
