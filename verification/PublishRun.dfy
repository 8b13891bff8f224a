/**
 * `RegistryPublication.publish` in its own form: a loop over the packages that changes
 * the remote registry command by command and may be cut off before any of them.
 */
module PublishRun {
  import opened Wrappers
  import opened Publication

  /** The remote registry, which only npm commands change. */
  class NpmRegistry {
    var contents: Registry

    constructor (contents: Registry)
      ensures this.contents == contents
    {
      this.contents := contents;
    }

    /** `npm publish`, for a version that does not exist yet. */
    method Publish(b: Bundle, p: Packed)
      requires RemoteIntegrity(contents, p.name, b.version).None?
      modifies this
      ensures contents == old(contents)[p.name := Published(b, Get(old(contents), p.name), p.integrity)]
    {
      contents := contents[p.name := Published(b, Get(contents, p.name), p.integrity)];
    }

    /** `ensureDistTag`, which throws when npm refuses to list or to add. */
    method EnsureDistTag(b: Bundle, name: string, tag: string) returns (ok: bool)
      modifies this
      ensures ok == EnsureTag(b, old(contents), name, tag).Some?
      ensures contents == if ok then EnsureTag(b, old(contents), name, tag).value else old(contents)
    {
      if name !in contents { return false; }
      if RemoteTag(contents, name, tag) == Some(b.version) { return true; }
      if b.version !in contents[name].versions { return false; }
      contents := contents[name := Tagged(b, contents[name], tag)];
      return true;
    }
  }

  datatype Outcome = Succeeded | Threw | Interrupted

  function OutcomeAt(pc: Pc): Outcome {
    match pc
    case Done => Succeeded
    case Failed => Threw
    case _ => Interrupted
  }

  lemma AdvanceRun(b: Bundle, r: Registry, n: nat, s: State)
    requires Run(b, r, n) == s
    ensures Run(b, r, n + 1) == Step(b, s)
  {}

  /** The registry and the outcome are those of a run over `r` cut off at `budget`. */
  ghost predicate EndsLike(b: Bundle, r: Registry, budget: nat, contents: Registry, outcome: Outcome) {
    contents == Run(b, r, budget).registry && outcome == OutcomeAt(Run(b, r, budget).pc)
  }

  lemma EndsStuck(b: Bundle, r: Registry, n: nat, budget: nat, contents: Registry)
    requires n <= budget && (Run(b, r, n) == State(Failed, contents) || Run(b, r, n) == State(Done, contents))
    ensures EndsLike(b, r, budget, contents, OutcomeAt(Run(b, r, n).pc))
  {
    RunStuck(b, r, n, budget);
  }

  /** The loop body of `publish`: publish the package unless it is there, then tag it. */
  method PublishPackage(npm: NpmRegistry, b: Bundle, i: nat, ghost r: Registry, used: nat, budget: nat)
    returns (n: nat, stopped: Option<Outcome>)
    requires i < |b.packages| && used <= budget && Run(b, r, used) == State(Inspect(i), npm.contents)
    modifies npm
    ensures stopped.Some? ==> EndsLike(b, r, budget, npm.contents, stopped.value)
    ensures stopped.None? ==> n <= budget && Run(b, r, n) == State(Inspect(i + 1), npm.contents)
  {
    hide Run, Get, Published, Tagged, RemoteTag;
    n, stopped := used, None;
    if n == budget { return n, Some(Interrupted); }
    var p := b.packages[i];
    AdvanceRun(b, r, n, State(Inspect(i), npm.contents));
    n := n + 1;
    match RemoteIntegrity(npm.contents, p.name, b.version) {
      case None => npm.Publish(b, p);
      case Some(existing) =>
        if existing != p.integrity {
          EndsStuck(b, r, n, budget, npm.contents);
          return n, Some(Threw);
        }
    }
    if n == budget { return n, Some(Interrupted); }
    AdvanceRun(b, r, n, State(Tag(i), npm.contents));
    n := n + 1;
    var ok := npm.EnsureDistTag(b, p.name, b.distTag);
    if !ok {
      EndsStuck(b, r, n, budget, npm.contents);
      return n, Some(Threw);
    }
  }

  /** What `publish` does once every package is tagged. */
  method MoveLatest(npm: NpmRegistry, b: Bundle, ghost r: Registry, used: nat, budget: nat) returns (outcome: Outcome)
    requires used <= budget && Run(b, r, used) == State(Inspect(|b.packages|), npm.contents)
    modifies npm
    ensures EndsLike(b, r, budget, npm.contents, outcome)
  {
    hide Run, Get, Published, Tagged, RemoteTag, Verified;
    var n := used;
    if n == budget { return Interrupted; }
    AdvanceRun(b, r, n, State(Inspect(|b.packages|), npm.contents));
    n := n + 1;
    if n == budget { return Interrupted; }
    AdvanceRun(b, r, n, State(EntryTag, npm.contents));
    n := n + 1;
    var ok := npm.EnsureDistTag(b, ENTRY, LATEST);
    if !ok {
      EndsStuck(b, r, n, budget, npm.contents);
      return Threw;
    }
    if n == budget { return Interrupted; }
    AdvanceRun(b, r, n, State(Pc.Verify, npm.contents));
    n := n + 1;
    outcome := if Verified(b, npm.contents) then Succeeded else Threw;
    EndsStuck(b, r, n, budget, npm.contents);
  }

  /** A run that is cut off before its command number `budget`. */
  method Publish(npm: NpmRegistry, b: Bundle, budget: nat) returns (outcome: Outcome)
    modifies npm
    ensures EndsLike(b, old(npm.contents), budget, npm.contents, outcome)
  {
    ghost var r := npm.contents;
    RunZero(b, r);
    var n: nat := 0;
    for i := 0 to |b.packages|
      invariant n <= budget && Run(b, r, n) == State(Inspect(i), npm.contents)
    {
      var stopped;
      n, stopped := PublishPackage(npm, b, i, r, n, budget);
      if stopped.Some? { return stopped.value; }
    }
    outcome := MoveLatest(npm, b, r, n, budget);
  }
}
