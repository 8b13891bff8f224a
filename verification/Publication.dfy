/**
 * Resumable publication of a release bundle (`RegistryPublication` of
 * scripts/publish-npm-baseline.ts) against a registry whose versions are immutable.
 * One step is one npm command; a run may be cut off between any two.
 */
module Publication {
  import opened Wrappers

  const ENTRY := "@coco-harness/cch"
  const LATEST := "latest"

  /** What the registry holds for one name: version to integrity, and dist-tag to version. */
  datatype PackageState = PackageState(versions: map<string, string>, tags: map<string, string>)

  type Registry = map<string, PackageState>

  datatype Packed = Packed(name: string, integrity: string)

  /**
   * `firstIsLatest` is the registry's own policy: whether the first version ever
   * published under a name also becomes its `latest`.
   */
  datatype Bundle = Bundle(version: string, distTag: string, packages: seq<Packed>, firstIsLatest: bool)

  /** Where a run stands: about to look at package `i`, about to tag it, and so on. */
  datatype Pc = Inspect(i: nat) | Tag(i: nat) | EntryTag | Verify | Done | Failed

  datatype State = State(pc: Pc, registry: Registry)

  // ----- the npm commands

  function Get(r: Registry, name: string): PackageState {
    if name in r then r[name] else PackageState(map[], map[])
  }

  /** `remoteIntegrity` */
  function RemoteIntegrity(r: Registry, name: string, version: string): (a: Option<string>)
    ensures forall v :: a == Some(v) <==> name in r && version in r[name].versions && r[name].versions[version] == v
  {
    if version in Get(r, name).versions then Some(Get(r, name).versions[version]) else None
  }

  /** `remoteDistTag` */
  function RemoteTag(r: Registry, name: string, tag: string): (a: Option<string>)
    ensures forall v :: a == Some(v) <==> name in r && tag in r[name].tags && r[name].tags[tag] == v
  {
    if tag in Get(r, name).tags then Some(Get(r, name).tags[tag]) else None
  }

  /** `npm publish --tag`: one new version and its tag. */
  function Published(b: Bundle, s: PackageState, integrity: string): PackageState {
    var tags := if b.firstIsLatest && s.versions == map[] then s.tags[LATEST := b.version] else s.tags;
    PackageState(s.versions[b.version := integrity], tags[b.distTag := b.version])
  }

  /** `npm dist-tag add` */
  function Tagged(b: Bundle, s: PackageState, tag: string): PackageState {
    s.(tags := s.tags[tag := b.version])
  }

  /** `ensureDistTag`: listing fails for an unknown name, adding for an unknown version. */
  function EnsureTag(b: Bundle, r: Registry, name: string, tag: string): Option<Registry> {
    if name !in r then None
    else if RemoteTag(r, name, tag) == Some(b.version) then Some(r)
    else if b.version !in r[name].versions then None
    else Some(r[name := Tagged(b, r[name], tag)])
  }

  /** Skipping the command when the tag is right leaves what the command would have left. */
  lemma EnsureTagTags(b: Bundle, r: Registry, name: string, tag: string)
    requires EnsureTag(b, r, name, tag).Some?
    ensures EnsureTag(b, r, name, tag).value == r[name := Tagged(b, Get(r, name), tag)]
  {
    if RemoteTag(r, name, tag) == Some(b.version) {
      assert r[name].tags[tag := b.version] == r[name].tags;
      assert r[name := r[name]] == r;
    }
  }

  /** What `verifyRemote` demands of one package. */
  predicate PackagePublished(b: Bundle, r: Registry, p: Packed) {
    && RemoteIntegrity(r, p.name, b.version) == Some(p.integrity)
    && RemoteTag(r, p.name, b.distTag) == Some(b.version)
  }

  /** `verifyRemote` and `verifyReleaseEntryDistTag` both succeed. */
  predicate Verified(b: Bundle, r: Registry) {
    && (forall i | 0 <= i < |b.packages| :: PackagePublished(b, r, b.packages[i]))
    && RemoteTag(r, ENTRY, LATEST) == Some(b.version)
  }

  // ----- one run, command by command

  function Step(b: Bundle, s: State): State {
    match s.pc
    case Inspect(i) =>
      if i >= |b.packages| then State(EntryTag, s.registry)
      else
        var p := b.packages[i];
        (match RemoteIntegrity(s.registry, p.name, b.version)
         case None => State(Tag(i), s.registry[p.name := Published(b, Get(s.registry, p.name), p.integrity)])
         case Some(existing) =>
           if existing == p.integrity then State(Tag(i), s.registry) else State(Failed, s.registry))
    case Tag(i) =>
      if i >= |b.packages| then State(Failed, s.registry)
      else
        (match EnsureTag(b, s.registry, b.packages[i].name, b.distTag)
         case None => State(Failed, s.registry)
         case Some(r) => State(Inspect(i + 1), r))
    case EntryTag =>
      (match EnsureTag(b, s.registry, ENTRY, LATEST)
       case None => State(Failed, s.registry)
       case Some(r) => State(Verify, r))
    case Verify => State(if Verified(b, s.registry) then Done else Failed, s.registry)
    case Done => s
    case Failed => s
  }

  /** What the registry shows of a published version: its contents and the tag that leads to it. */
  ghost predicate Shows(r: Registry, name: string, version: string, integrity: string, tag: string) {
    && name in r
    && version in r[name].versions && r[name].versions[version] == integrity
    && tag in r[name].tags && r[name].tags[tag] == version
  }

  /** Over any registry, whoever wrote it, verification succeeds exactly when the whole release is there and latest. */
  lemma {:induction false} VerifyMeans(b: Bundle, r: Registry)
    ensures Step(b, State(Verify, r)).registry == r
    ensures Step(b, State(Verify, r)).pc == Done <==>
      && (forall p :: p in b.packages ==> Shows(r, p.name, b.version, p.integrity, b.distTag))
      && ENTRY in r && LATEST in r[ENTRY].tags && r[ENTRY].tags[LATEST] == b.version
    ensures Step(b, State(Verify, r)).pc in {Done, Failed}
  {
    forall p | p in b.packages
      ensures PackagePublished(b, r, p) <==> Shows(r, p.name, b.version, p.integrity, b.distTag) {}
    hide Shows, PackagePublished;
  }

  /** The state of a run after `n` commands. */
  function Run(b: Bundle, r: Registry, n: nat): State {
    if n == 0 then State(Inspect(0), r) else Step(b, Run(b, r, n - 1))
  }

  /** How many commands an uninterrupted run takes at most. */
  function FullLength(b: Bundle): nat {
    2 * |b.packages| + 3
  }

  /** The registry after a series of runs, each cut off after some number of commands. */
  function Runs(b: Bundle, r: Registry, lengths: seq<nat>): Registry {
    if lengths == [] then r
    else Run(b, Runs(b, r, lengths[..|lengths| - 1]), lengths[|lengths| - 1]).registry
  }

  // ----- the states a package goes through

  /** `ReleaseBundle.load` refuses a manifest that names a package twice. */
  ghost predicate UniqueNames(b: Bundle) {
    forall i, j :: 0 <= i < j < |b.packages| ==> b.packages[i].name != b.packages[j].name
  }

  /** The package, once this bundle has dealt with it. */
  function Target(b: Bundle, s: PackageState, p: Packed): PackageState {
    if b.version in s.versions then Tagged(b, s, b.distTag) else Published(b, s, p.integrity)
  }

  /** The registry with the first `k` packages dealt with. */
  function Advanced(b: Bundle, r0: Registry, k: nat): Registry
    requires k <= |b.packages|
  {
    if k == 0 then r0
    else
      var p := b.packages[k - 1];
      Advanced(b, r0, k - 1)[p.name := Target(b, Get(r0, p.name), p)]
  }

  function Finished(b: Bundle, r: Registry): Registry {
    r[ENTRY := Tagged(b, Get(r, ENTRY), LATEST)]
  }

  /** Package `p` is not already published with other contents. */
  predicate Agrees(b: Bundle, r0: Registry, p: Packed) {
    RemoteIntegrity(r0, p.name, b.version) in {None, Some(p.integrity)}
  }

  predicate AgreesUpTo(b: Bundle, r0: Registry, k: nat)
    requires k <= |b.packages|
  {
    forall i | 0 <= i < k :: Agrees(b, r0, b.packages[i])
  }

  /** `latest` of the entry package can be moved, or is already there. */
  predicate EntryTaggable(b: Bundle, r: Registry) {
    ENTRY in r && (b.version in r[ENTRY].versions || RemoteTag(r, ENTRY, LATEST) == Some(b.version))
  }

  predicate HasEntry(b: Bundle) {
    exists i | 0 <= i < |b.packages| :: b.packages[i].name == ENTRY
  }

  /** Nothing stands in the way of the bundle. */
  predicate Publishable(b: Bundle, r0: Registry) {
    AgreesUpTo(b, r0, |b.packages|) && (HasEntry(b) || EntryTaggable(b, r0))
  }

  /** What the registry holds between two commands: a prefix done, and `latest` moved only after all. */
  ghost predicate Between(b: Bundle, r0: Registry, k: nat, latest: bool, r: Registry) {
    && k <= |b.packages| && AgreesUpTo(b, r0, k)
    && (latest ==> k == |b.packages| && EntryTaggable(b, Advanced(b, r0, k)))
    && r == if latest then Finished(b, Advanced(b, r0, k)) else Advanced(b, r0, k)
  }

  ghost predicate AtPc(b: Bundle, r0: Registry, k: nat, latest: bool, s: State) {
    && Between(b, r0, k, latest, s.registry)
    && match s.pc
       case Inspect(i) => i <= k
       case Tag(i) => i <= k && i < |b.packages| && Agrees(b, r0, b.packages[i])
                      && RemoteIntegrity(s.registry, b.packages[i].name, b.version) == Some(b.packages[i].integrity)
       case EntryTag => k == |b.packages|
       case Verify => latest
       case Done => latest
       case Failed => true
  }

  lemma {:induction false} AdvancedUntouched(b: Bundle, r0: Registry, k: nat, name: string)
    requires k <= |b.packages| && forall i :: 0 <= i < k ==> b.packages[i].name != name
    ensures Get(Advanced(b, r0, k), name) == Get(r0, name)
    ensures name in Advanced(b, r0, k) <==> name in r0
  {
    if k > 0 { AdvancedUntouched(b, r0, k - 1, name); }
  }

  lemma {:induction false} AdvancedDone(b: Bundle, r0: Registry, k: nat, i: nat)
    requires UniqueNames(b) && i < k <= |b.packages|
    ensures b.packages[i].name in Advanced(b, r0, k)
    ensures Get(Advanced(b, r0, k), b.packages[i].name) == Target(b, Get(r0, b.packages[i].name), b.packages[i])
  {
    if i < k - 1 { AdvancedDone(b, r0, k - 1, i); }
  }

  /** Once every package is dealt with, `latest` can be moved if it could be before or the entry is among them. */
  lemma TaggableInTheEnd(b: Bundle, r0: Registry)
    requires UniqueNames(b)
    ensures EntryTaggable(b, Advanced(b, r0, |b.packages|)) <==> HasEntry(b) || EntryTaggable(b, r0)
  {
    if i :| 0 <= i < |b.packages| && b.packages[i].name == ENTRY {
      AdvancedDone(b, r0, |b.packages|, i);
    } else {
      AdvancedUntouched(b, r0, |b.packages|, ENTRY);
    }
  }

  /** Whatever the registry holds between commands, a finished package is as `verifyRemote` wants it. */
  lemma DoneIsPublished(b: Bundle, r0: Registry, k: nat, latest: bool, r: Registry, i: nat)
    requires UniqueNames(b) && Between(b, r0, k, latest, r) && i < k
    ensures b.packages[i].name in r && PackagePublished(b, r, b.packages[i])
  {
    AdvancedDone(b, r0, k, i);
    assert Agrees(b, r0, b.packages[i]);
  }

  lemma InspectKeeps(b: Bundle, r0: Registry, k: nat, latest: bool, s: State) returns (k': nat)
    requires UniqueNames(b) && AtPc(b, r0, k, latest, s) && s.pc.Inspect?
    ensures k <= k' && AtPc(b, r0, k', latest, Step(b, s))
  {
    k' := k;
    var i := s.pc.i;
    if i < k {
      DoneIsPublished(b, r0, k, latest, s.registry, i);
      assert Agrees(b, r0, b.packages[i]);
    } else if i < |b.packages| {
      var p := b.packages[i];
      AdvancedUntouched(b, r0, k, p.name);
      if RemoteIntegrity(s.registry, p.name, b.version).None? { k' := k + 1; }
    }
  }

  lemma TagKeeps(b: Bundle, r0: Registry, k: nat, latest: bool, s: State) returns (k': nat)
    requires UniqueNames(b) && AtPc(b, r0, k, latest, s) && s.pc.Tag?
    ensures k <= k' && AtPc(b, r0, k', latest, Step(b, s))
  {
    k' := k;
    var i := s.pc.i;
    if i < k {
      DoneIsPublished(b, r0, k, latest, s.registry, i);
    } else {
      AdvancedUntouched(b, r0, k, b.packages[i].name);
      k' := k + 1;
      var p := b.packages[i];
      assert AgreesUpTo(b, r0, k + 1);
      EnsureTagTags(b, s.registry, p.name, b.distTag);
      assert s.registry[p.name := Target(b, Get(r0, p.name), p)] == Advanced(b, r0, k + 1);
    }
  }

  lemma StepKeeps(b: Bundle, r0: Registry, k: nat, latest: bool, s: State) returns (k': nat, latest': bool)
    requires UniqueNames(b) && AtPc(b, r0, k, latest, s)
    ensures k <= k' && (latest ==> latest') && AtPc(b, r0, k', latest', Step(b, s))
  {
    k', latest' := k, latest;
    match s.pc
    case Inspect(_) => k' := InspectKeeps(b, r0, k, latest, s);
    case Tag(_) => k' := TagKeeps(b, r0, k, latest, s);
    case EntryTag =>
      if EnsureTag(b, s.registry, ENTRY, LATEST).Some? {
        EnsureTagTags(b, s.registry, ENTRY, LATEST);
        latest' := true;
      }
    case Verify =>
    case Done =>
    case Failed =>
  }

  // ----- every registry an interrupted publication can leave behind

  lemma {:induction false} RunKeeps(b: Bundle, r0: Registry, k: nat, latest: bool, r: Registry, n: nat)
    returns (k': nat, latest': bool)
    requires UniqueNames(b) && Between(b, r0, k, latest, r)
    ensures k <= k' && (latest ==> latest') && AtPc(b, r0, k', latest', Run(b, r, n))
  {
    k', latest' := k, latest;
    if n > 0 {
      k', latest' := RunKeeps(b, r0, k, latest, r, n - 1);
      k', latest' := StepKeeps(b, r0, k', latest', Run(b, r, n - 1));
    }
  }

  lemma {:induction false} RunsKeep(b: Bundle, r0: Registry, lengths: seq<nat>) returns (k: nat, latest: bool)
    requires UniqueNames(b)
    ensures Between(b, r0, k, latest, Runs(b, r0, lengths))
  {
    k, latest := 0, false;
    if lengths != [] {
      k, latest := RunsKeep(b, r0, lengths[..|lengths| - 1]);
      k, latest := RunKeeps(b, r0, k, latest, Runs(b, r0, lengths[..|lengths| - 1]), lengths[|lengths| - 1]);
    }
  }

  // ----- safety

  ghost predicate AllPublished(b: Bundle, r: Registry) {
    forall i :: 0 <= i < |b.packages| ==> PackagePublished(b, r, b.packages[i])
  }

  /** Whoever installs the entry package by default finds the whole release. */
  ghost predicate Safe(b: Bundle, r: Registry) {
    RemoteTag(r, ENTRY, LATEST) == Some(b.version) ==> AllPublished(b, r)
  }

  /** Dealing with the entry package already makes its version `latest`. */
  predicate MovesLatestEarly(b: Bundle, r0: Registry) {
    b.distTag == LATEST || (b.firstIsLatest && Get(r0, ENTRY).versions == map[])
  }

  /** The entry package at `e` is dealt with while the package at `j` behind it is not there yet. */
  predicate ExposesAt(b: Bundle, r0: Registry, e: nat, j: nat) {
    && e < j < |b.packages| && b.packages[e].name == ENTRY
    && AgreesUpTo(b, r0, e + 1) && !PackagePublished(b, r0, b.packages[j])
  }

  /** What a caller can read off the bundle and the registry before the first run. */
  ghost predicate CanExpose(b: Bundle, r0: Registry) {
    if RemoteTag(r0, ENTRY, LATEST) == Some(b.version) then !AllPublished(b, r0)
    else MovesLatestEarly(b, r0) && exists e, j :: ExposesAt(b, r0, e, j)
  }

  /** A package that was there before the first run is there between any two commands. */
  lemma {:induction false} PublishedStays(b: Bundle, r0: Registry, k: nat, latest: bool, r: Registry, i: nat)
    requires UniqueNames(b) && Between(b, r0, k, latest, r)
    requires i < |b.packages| && PackagePublished(b, r0, b.packages[i])
    ensures PackagePublished(b, r, b.packages[i])
  {
    if i < k {
      DoneIsPublished(b, r0, k, latest, r, i);
    } else {
      AdvancedUntouched(b, r0, k, b.packages[i].name);
    }
  }

  /** Until all packages are done, `latest` of the entry package moves only early. */
  lemma {:induction false} LatestWaits(b: Bundle, r0: Registry, k: nat, latest: bool, r: Registry)
    requires UniqueNames(b) && Between(b, r0, k, latest, r) && k < |b.packages|
    requires RemoteTag(r, ENTRY, LATEST) == Some(b.version) != RemoteTag(r0, ENTRY, LATEST)
    ensures MovesLatestEarly(b, r0) && exists e :: 0 <= e < k && b.packages[e].name == ENTRY
  {
    if e :| 0 <= e < k && b.packages[e].name == ENTRY {
      AdvancedDone(b, r0, k, e);
    } else {
      AdvancedUntouched(b, r0, k, ENTRY);
    }
  }

  lemma {:induction false} BetweenIsSafe(b: Bundle, r0: Registry, k: nat, latest: bool, r: Registry)
    requires UniqueNames(b) && !CanExpose(b, r0) && Between(b, r0, k, latest, r)
    ensures Safe(b, r)
  {
    hide Advanced, Finished, PackagePublished, MovesLatestEarly, UniqueNames;
    if RemoteTag(r, ENTRY, LATEST) == Some(b.version) {
      forall i | 0 <= i < |b.packages| ensures PackagePublished(b, r, b.packages[i]) {
        if i < k {
          DoneIsPublished(b, r0, k, latest, r, i);
        } else {
          WasPublished(b, r0, k, latest, r, i);
          PublishedStays(b, r0, k, latest, r, i);
        }
      }
    }
  }

  lemma {:induction false} WasPublished(b: Bundle, r0: Registry, k: nat, latest: bool, r: Registry, i: nat)
    requires UniqueNames(b) && !CanExpose(b, r0) && Between(b, r0, k, latest, r) && k <= i < |b.packages|
    requires RemoteTag(r, ENTRY, LATEST) == Some(b.version)
    ensures PackagePublished(b, r0, b.packages[i])
  {
    hide Advanced, Finished, PackagePublished, MovesLatestEarly, UniqueNames;
    if RemoteTag(r0, ENTRY, LATEST) != Some(b.version) {
      LatestWaits(b, r0, k, latest, r);
      var e :| 0 <= e < k && b.packages[e].name == ENTRY;
      assert !ExposesAt(b, r0, e, i);
    }
  }

  /** Where nothing can expose it, no sequence of interrupted runs shows an incomplete release. */
  lemma PublicationSafe(b: Bundle, r0: Registry, lengths: seq<nat>)
    requires UniqueNames(b) && !CanExpose(b, r0)
    ensures Safe(b, Runs(b, r0, lengths))
  {
    var k, latest := RunsKeep(b, r0, lengths);
    BetweenIsSafe(b, r0, k, latest, Runs(b, r0, lengths));
  }

  // ----- convergence

  lemma {:induction false} RunStuck(b: Bundle, r: Registry, n: nat, m: nat)
    requires n <= m && (Run(b, r, n).pc.Done? || Run(b, r, n).pc.Failed?)
    ensures Run(b, r, m) == Run(b, r, n)
  {
    if n < m { RunStuck(b, r, n, m - 1); }
  }

  /** Two commands per package, as long as nothing disagrees. */
  lemma {:induction false} RunReaches(b: Bundle, r0: Registry, k: nat, latest: bool, r: Registry, i: nat)
    requires UniqueNames(b) && Between(b, r0, k, latest, r) && i <= |b.packages| && AgreesUpTo(b, r0, i)
    ensures Run(b, r, 2 * i).pc == Inspect(i)
  {
    hide *;
    RunZero(b, r);
    if i > 0 {
      AgreesBelow(b, r0, i);
      RunReaches(b, r0, k, latest, r, i - 1);
      var n := 2 * (i - 1);
      var k1, latest1 := RunKeeps(b, r0, k, latest, r, n);
      PackageSteps(b, r0, k1, latest1, r, n);
      assert Run(b, r, n + 2).pc == Inspect(i) && n + 2 == 2 * i;
    }
  }

  lemma RunZero(b: Bundle, r: Registry)
    ensures Run(b, r, 0) == State(Inspect(0), r)
  {}

  lemma AgreesBelow(b: Bundle, r0: Registry, i: nat)
    requires 0 < i <= |b.packages| && AgreesUpTo(b, r0, i)
    ensures AgreesUpTo(b, r0, i - 1) && Agrees(b, r0, b.packages[i - 1])
  {}

  lemma PackageSteps(b: Bundle, r0: Registry, k: nat, latest: bool, r: Registry, n: nat)
    requires UniqueNames(b) && AtPc(b, r0, k, latest, Run(b, r, n))
    requires Run(b, r, n).pc.Inspect? && Run(b, r, n).pc.i < |b.packages|
      && Agrees(b, r0, b.packages[Run(b, r, n).pc.i])
    ensures Run(b, r, n + 2).pc == Inspect(Run(b, r, n).pc.i + 1)
  {
    var s := Run(b, r, n);
    InspectAgreeing(b, r0, k, latest, s);
    TagSucceeds(b, Step(b, s));
    hide Step;
    assert Run(b, r, n + 1) == Step(b, s);
  }

  lemma InspectAgreeing(b: Bundle, r0: Registry, k: nat, latest: bool, s: State)
    requires UniqueNames(b) && AtPc(b, r0, k, latest, s) && s.pc.Inspect? && s.pc.i < |b.packages|
    ensures Agrees(b, r0, b.packages[s.pc.i]) ==>
      Step(b, s).pc == Tag(s.pc.i) && b.version in Get(Step(b, s).registry, b.packages[s.pc.i].name).versions
    ensures !Agrees(b, r0, b.packages[s.pc.i]) ==> Step(b, s) == State(Failed, s.registry)
  {
    var p := b.packages[s.pc.i];
    if s.pc.i < k {
      DoneIsPublished(b, r0, k, latest, s.registry, s.pc.i);
      assert Agrees(b, r0, p);
    } else {
      AdvancedUntouched(b, r0, k, p.name);
    }
  }

  lemma TagSucceeds(b: Bundle, s: State)
    requires s.pc.Tag? && s.pc.i < |b.packages| && b.version in Get(s.registry, b.packages[s.pc.i].name).versions
    ensures Step(b, s).pc == Inspect(s.pc.i + 1)
  {}

  lemma FinishedVerifies(b: Bundle, r0: Registry, k: nat, r: Registry)
    requires UniqueNames(b) && Between(b, r0, k, true, r)
    ensures Verified(b, r)
  {
    forall i | 0 <= i < |b.packages| ensures PackagePublished(b, r, b.packages[i]) {
      DoneIsPublished(b, r0, k, true, r, i);
    }
  }

  /**
   * After any history of interrupted runs, one uninterrupted run succeeds exactly when
   * the bundle was publishable to begin with, and then leaves the very registry that a
   * never interrupted run would have left, with both verifications passing.
   */
  lemma PublicationConverges(b: Bundle, r0: Registry, lengths: seq<nat>)
    requires UniqueNames(b)
    ensures var s := Run(b, Runs(b, r0, lengths), FullLength(b));
            if Publishable(b, r0) then
              s == State(Done, Finished(b, Advanced(b, r0, |b.packages|))) && Verified(b, s.registry)
            else s.pc == Failed
  {
    hide Run, Runs, Step, AtPc, Between, UniqueNames, Verified, EntryTaggable, Advanced, Finished;
    var r, n := Runs(b, r0, lengths), |b.packages|;
    var k, latest := RunsKeep(b, r0, lengths);
    TaggableInTheEnd(b, r0);
    if AgreesUpTo(b, r0, n) {
      RunReaches(b, r0, k, latest, r, n);
      var k1, latest1 := RunKeeps(b, r0, k, latest, r, 2 * n);
      LastSteps(b, r0, k1, latest1, r, 2 * n);
    } else {
      var i := FirstConflict(b, r0, n);
      RunReaches(b, r0, k, latest, r, i);
      var k1, latest1 := RunKeeps(b, r0, k, latest, r, 2 * i);
      ConflictFails(b, r0, k1, latest1, r, 2 * i);
      RunStuck(b, r, 2 * i + 1, FullLength(b));
    }
  }

  lemma ConflictFails(b: Bundle, r0: Registry, k: nat, latest: bool, r: Registry, n: nat)
    requires UniqueNames(b) && AtPc(b, r0, k, latest, Run(b, r, n))
    requires Run(b, r, n).pc.Inspect? && Run(b, r, n).pc.i < |b.packages|
      && !Agrees(b, r0, b.packages[Run(b, r, n).pc.i])
    ensures Run(b, r, n + 1).pc == Failed
  {
    InspectAgreeing(b, r0, k, latest, Run(b, r, n));
  }

  lemma LastSteps(b: Bundle, r0: Registry, k: nat, latest: bool, r: Registry, m: nat)
    requires UniqueNames(b) && AtPc(b, r0, k, latest, Run(b, r, m)) && Run(b, r, m).pc == Inspect(|b.packages|)
    ensures var s := Run(b, r, m + 3);
            if EntryTaggable(b, Advanced(b, r0, |b.packages|)) then
              s == State(Done, Finished(b, Advanced(b, r0, |b.packages|))) && Verified(b, s.registry)
            else s.pc == Failed
  {
    var s1, s2 := Run(b, r, m + 1), Run(b, r, m + 2);
    assert s1 == State(EntryTag, Run(b, r, m).registry);
    if EntryTaggable(b, Advanced(b, r0, |b.packages|)) {
      var k2, latest2 := StepKeeps(b, r0, k, latest, s1);
      assert s2.pc == Verify;
      FinishedVerifies(b, r0, k2, s2.registry);
    } else {
      assert s2.pc == Failed;
    }
  }

  lemma {:induction false} FirstConflict(b: Bundle, r0: Registry, n: nat) returns (i: nat)
    requires n <= |b.packages| && !AgreesUpTo(b, r0, n)
    ensures i < n && AgreesUpTo(b, r0, i) && !Agrees(b, r0, b.packages[i])
  {
    if AgreesUpTo(b, r0, n - 1) { return n - 1; }
    i := FirstConflict(b, r0, n - 1);
  }

  // ----- immutability

  lemma {:induction false} AdvancedVersions(b: Bundle, r0: Registry, k: nat, name: string, v: string)
    requires UniqueNames(b) && k <= |b.packages|
    ensures RemoteIntegrity(r0, name, v).Some?
      ==> RemoteIntegrity(Advanced(b, r0, k), name, v) == RemoteIntegrity(r0, name, v)
    ensures RemoteIntegrity(r0, name, v).None? && RemoteIntegrity(Advanced(b, r0, k), name, v).Some? ==>
      v == b.version && Packed(name, RemoteIntegrity(Advanced(b, r0, k), name, v).value) in b.packages[..k]
  {
    if k > 0 {
      AdvancedVersions(b, r0, k - 1, name, v);
      AdvancedStep(b, r0, k, name, v);
      hide UniqueNames, RemoteIntegrity, Advanced;
      assert b.packages[..k] == b.packages[..k - 1] + [b.packages[k - 1]];
    }
  }

  /** Dealing with one more package adds at most its own version. */
  lemma {:induction false} AdvancedStep(b: Bundle, r0: Registry, k: nat, name: string, v: string)
    requires UniqueNames(b) && 0 < k <= |b.packages|
    ensures var p := b.packages[k - 1];
            RemoteIntegrity(Advanced(b, r0, k), name, v) ==
              if name == p.name && v == b.version && RemoteIntegrity(Advanced(b, r0, k - 1), name, v).None?
              then Some(p.integrity) else RemoteIntegrity(Advanced(b, r0, k - 1), name, v)
  {
    AdvancedUntouched(b, r0, k - 1, b.packages[k - 1].name);
    hide UniqueNames;
  }

  /** Existing versions keep their contents, and only the bundle's own are ever added. */
  lemma VersionsImmutable(b: Bundle, r0: Registry, lengths: seq<nat>, name: string, v: string)
    requires UniqueNames(b)
    ensures var before, after := RemoteIntegrity(r0, name, v), RemoteIntegrity(Runs(b, r0, lengths), name, v);
            if before.Some? then after == before
            else after.Some? ==> v == b.version && Packed(name, after.value) in b.packages
  {
    var k, latest := RunsKeep(b, r0, lengths);
    AdvancedVersions(b, r0, k, name, v);
  }

  // ----- dist-tags

  predicate Bundled(b: Bundle, k: nat, name: string)
    requires k <= |b.packages|
  {
    exists i | 0 <= i < k :: b.packages[i].name == name
  }

  /** The tags that publishing a bundled package sets, the one that the registry gives a first version among them. */
  predicate SetsTag(b: Bundle, before: PackageState, tag: string) {
    tag == b.distTag || (tag == LATEST && b.firstIsLatest && before.versions == map[])
  }

  /** The tags that a whole publication is meant to move. */
  predicate MovesTag(b: Bundle, r0: Registry, name: string, tag: string) {
    || (name == ENTRY && tag == LATEST)
    || (Bundled(b, |b.packages|, name) && SetsTag(b, Get(r0, name), tag))
  }

  lemma {:induction false} AdvancedTags(b: Bundle, r0: Registry, k: nat, name: string, tag: string)
    requires UniqueNames(b) && k <= |b.packages|
    ensures RemoteTag(Advanced(b, r0, k), name, tag) ==
      if Bundled(b, k, name) && SetsTag(b, Get(r0, name), tag) then Some(b.version) else RemoteTag(r0, name, tag)
  {
    if i :| 0 <= i < k && b.packages[i].name == name {
      AdvancedDone(b, r0, k, i);
    } else {
      AdvancedUntouched(b, r0, k, name);
    }
  }

  /** However often a publication is cut off, every other tag of every package stays where it was. */
  lemma {:induction false} TagsKept(b: Bundle, r0: Registry, lengths: seq<nat>, name: string, tag: string)
    requires UniqueNames(b)
    ensures var before, after := RemoteTag(r0, name, tag), RemoteTag(Runs(b, r0, lengths), name, tag);
            after == before || (MovesTag(b, r0, name, tag) && after == Some(b.version))
  {
    var k, latest := RunsKeep(b, r0, lengths);
    AdvancedTags(b, r0, k, name, tag);
  }

  /** A successful publication has moved exactly these tags, and each to the bundle's version. */
  lemma {:induction false} TagsInTheEnd(b: Bundle, r0: Registry, lengths: seq<nat>, name: string, tag: string)
    requires UniqueNames(b) && Publishable(b, r0)
    ensures RemoteTag(Run(b, Runs(b, r0, lengths), FullLength(b)).registry, name, tag)
         == if MovesTag(b, r0, name, tag) then Some(b.version) else RemoteTag(r0, name, tag)
  {
    PublicationConverges(b, r0, lengths);
    AdvancedTags(b, r0, |b.packages|, name, tag);
  }

  /** What is neither in the bundle nor the entry package is not touched at all. */
  lemma {:induction false} OthersUntouched(b: Bundle, r0: Registry, lengths: seq<nat>, name: string)
    requires UniqueNames(b) && name != ENTRY && forall p :: p in b.packages ==> p.name != name
    ensures name in Runs(b, r0, lengths) <==> name in r0
    ensures name in r0 ==> Runs(b, r0, lengths)[name] == r0[name]
  {
    var k, latest := RunsKeep(b, r0, lengths);
    AdvancedUntouched(b, r0, k, name);
  }

  // ----- and where it can be exposed, some run exposes it

  /** A run cut off right behind the entry package leaves every package after it as it was. */
  lemma {:induction false} ExposedAfterEntry(b: Bundle, r0: Registry, e: nat, j: nat)
    requires UniqueNames(b) && MovesLatestEarly(b, r0) && ExposesAt(b, r0, e, j)
    ensures !Safe(b, Run(b, r0, 2 * (e + 1)).registry)
  {
    hide Run, Step, UniqueNames;
    var n := 2 * (e + 1);
    var s := Run(b, r0, n);
    assert Between(b, r0, 0, false, r0);
    RunReaches(b, r0, 0, false, r0, e + 1);
    var k, latest := RunKeeps(b, r0, 0, false, r0, n);
    AtInspect(b, r0, k, latest, s);
    hide AtPc, AgreesUpTo;
    EntryIsLatest(b, r0, k, latest, s.registry, e);
    OtherName(b, e, j);
    AheadUntouched(b, r0, n, j);
    assert !PackagePublished(b, s.registry, b.packages[j]);
  }

  lemma OtherName(b: Bundle, e: nat, j: nat)
    requires UniqueNames(b) && e < j < |b.packages|
    ensures b.packages[e].name != b.packages[j].name
  {}

  lemma {:induction false} EntryIsLatest(b: Bundle, r0: Registry, k: nat, latest: bool, r: Registry, e: nat)
    requires UniqueNames(b) && MovesLatestEarly(b, r0) && Between(b, r0, k, latest, r)
    requires e < k && b.packages[e].name == ENTRY
    ensures RemoteTag(r, ENTRY, LATEST) == Some(b.version)
  {
    AdvancedDone(b, r0, k, e);
  }

  lemma {:induction false} OneRun(b: Bundle, r0: Registry, n: nat)
    ensures Runs(b, r0, [n]) == Run(b, r0, n).registry && Runs(b, r0, []) == r0
  {
    assert [n][..0] == [];
  }

  lemma Exposed(b: Bundle, r0: Registry) returns (lengths: seq<nat>)
    requires UniqueNames(b) && CanExpose(b, r0)
    ensures !Safe(b, Runs(b, r0, lengths))
  {
    hide Run, Runs, UniqueNames, MovesLatestEarly, ExposesAt, PackagePublished;
    OneRun(b, r0, 0);
    if RemoteTag(r0, ENTRY, LATEST) == Some(b.version) { return []; }
    var e, j :| ExposesAt(b, r0, e, j);
    ExposedAfterEntry(b, r0, e, j);
    OneRun(b, r0, 2 * (e + 1));
    lengths := [2 * (e + 1)];
  }

  /** The exact condition, for every bundle and every registry it may meet. */
  lemma SafeIff(b: Bundle, r0: Registry)
    requires UniqueNames(b)
    ensures (forall lengths :: Safe(b, Runs(b, r0, lengths))) <==> !CanExpose(b, r0)
  {
    hide Safe, Runs, CanExpose, UniqueNames;
    if CanExpose(b, r0) {
      var lengths := Exposed(b, r0);
    } else {
      forall lengths ensures Safe(b, Runs(b, r0, lengths)) { PublicationSafe(b, r0, lengths); }
    }
  }

  /**
   * The first release on a registry that makes a first version `latest`: with the entry
   * package in front of any other, one publish command exposes an incomplete release.
   */
  lemma {:induction false} FirstReleaseExposed(b: Bundle)
    requires b.firstIsLatest && |b.packages| > 1 && b.packages[0].name == ENTRY != b.packages[1].name
    ensures !Safe(b, Runs(b, map[], [1]))
  {
    var r := Run(b, map[], 1).registry;
    OneRun(b, map[], 1);
    assert Run(b, map[], 0) == State(Inspect(0), map[]);
    assert r == map[ENTRY := Published(b, Get(map[], ENTRY), b.packages[0].integrity)];
    assert !PackagePublished(b, r, b.packages[1]);
  }

  const FIRST_RELEASE :=
    Bundle("1.0.0-x", "dev-1.0.0", [Packed(ENTRY, "sha512-a"), Packed("@coco-harness/cch-a", "sha512-b")], true)

  /** Its dist-tag is not `latest`, and `latest` names nothing before the run. */
  lemma FirstReleaseExample()
    ensures UniqueNames(FIRST_RELEASE) && FIRST_RELEASE.distTag != LATEST && RemoteTag(map[], ENTRY, LATEST) == None
    ensures CanExpose(FIRST_RELEASE, map[]) && !Safe(FIRST_RELEASE, Runs(FIRST_RELEASE, map[], [1]))
  {
    assert |FIRST_RELEASE.packages[0].name| != |FIRST_RELEASE.packages[1].name|;
    FirstReleaseExposed(FIRST_RELEASE);
    assert ExposesAt(FIRST_RELEASE, map[], 0, 1);
  }

  lemma AtInspect(b: Bundle, r0: Registry, k: nat, latest: bool, s: State)
    requires AtPc(b, r0, k, latest, s) && s.pc.Inspect?
    ensures s.pc.i <= k && Between(b, r0, k, latest, s.registry)
  {}

  /** A run has not touched the packages it has not come to. */
  lemma {:induction false} AheadUntouched(b: Bundle, r0: Registry, n: nat, i: nat)
    requires UniqueNames(b) && n <= 2 * i && i < |b.packages| && b.packages[i].name != ENTRY
    ensures Get(Run(b, r0, n).registry, b.packages[i].name) == Get(r0, b.packages[i].name)
    ensures match Run(b, r0, n).pc
            case Inspect(j) => 2 * j <= n
            case Tag(j) => 2 * j + 1 <= n
            case _ => true
  {
    if n > 0 {
      AheadUntouched(b, r0, n - 1, i);
      var s := Run(b, r0, n - 1);
      hide Step;
      StepAhead(b, s, i, n - 1);
    }
  }

  lemma {:induction false} StepAhead(b: Bundle, s: State, i: nat, n: nat)
    requires UniqueNames(b) && n < 2 * i && i < |b.packages| && b.packages[i].name != ENTRY
    requires match s.pc
             case Inspect(j) => 2 * j <= n
             case Tag(j) => 2 * j + 1 <= n
             case _ => true
    ensures Get(Step(b, s).registry, b.packages[i].name) == Get(s.registry, b.packages[i].name)
    ensures match Step(b, s).pc
            case Inspect(j) => 2 * j <= n + 1
            case Tag(j) => 2 * j + 1 <= n + 1
            case _ => true
  {
    hide Published, Tagged, Verified;
    if (s.pc.Inspect? || s.pc.Tag?) && s.pc.i < i {
      assert b.packages[s.pc.i].name != b.packages[i].name;
    }
  }
}
