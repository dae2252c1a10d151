/**
 Publishing a generation of staged PTX files: artifacts first, each through a temporary file
 and an atomic replace, and the COMPLETE marker last.
 */
module Publication {

  /** Files of one generation directory, the pass manifest beside it, and the temporary names of a process. */
  datatype Path = Ptx(name: nat) | PassManifest | StagingManifest | CompleteMarker | Temporary(target: Path, pid: nat) | Elsewhere(id: nat)

  datatype Artifact = Artifact(path: Path, digest: nat)

  /** What a file can hold; JSON documents are given by what the verifier reads from them. */
  datatype Content =
    | Raw(bytes: seq<nat>)
    | ManifestText(status: nat, staged: set<Path>, rest: seq<nat>)
    | MarkerText(markerStatus: nat, manifestDigest: nat, passPath: Path, passDigest: nat, artifacts: seq<Artifact>)

  type Files = map<Path, Content>

  datatype Entry = Entry(path: Path, payload: Content)

  /** The result of the transformation: what is to be published, apart from the marker. */
  datatype Plan = Plan(staged: seq<Entry>, pass: Content, status: nat, rest: seq<nat>)

  ghost predicate Injective(hash: Content -> nat) {
    forall x, y :: hash(x) == hash(y) ==> x == y
  }

  // ---------------------------------------------------------------- the plan

  function StagedPaths(staged: seq<Entry>): set<Path> {
    set i | 0 <= i < |staged| :: staged[i].path
  }

  ghost predicate PlanOk(plan: Plan) {
    && (forall i :: 0 <= i < |plan.staged| ==> plan.staged[i].path.Ptx?)
    && (forall i, j :: 0 <= i < j < |plan.staged| ==> plan.staged[i].path != plan.staged[j].path)
  }

  function ManifestOf(plan: Plan): Content {
    ManifestText(plan.status, StagedPaths(plan.staged), plan.rest)
  }

  /** Everything the marker vouches for, in the order of publication. */
  function Artifacts(plan: Plan): seq<Entry> {
    plan.staged + [Entry(PassManifest, plan.pass), Entry(StagingManifest, ManifestOf(plan))]
  }

  function Digests(hash: Content -> nat, entries: seq<Entry>): seq<Artifact> {
    seq(|entries|, i requires 0 <= i < |entries| => Artifact(entries[i].path, hash(entries[i].payload)))
  }

  function MarkerOf(hash: Content -> nat, plan: Plan): Content {
    MarkerText(plan.status, hash(ManifestOf(plan)), PassManifest, hash(plan.pass), Digests(hash, Artifacts(plan)))
  }

  function Planned(hash: Content -> nat, plan: Plan): seq<Entry> {
    Artifacts(plan) + [Entry(CompleteMarker, MarkerOf(hash, plan))]
  }

  lemma PlannedPathsDiffer(hash: Content -> nat, plan: Plan, i: nat, j: nat)
    requires PlanOk(plan) && i < j < |Planned(hash, plan)|
    ensures Planned(hash, plan)[i].path != Planned(hash, plan)[j].path
    ensures !Planned(hash, plan)[i].path.Temporary? && !Planned(hash, plan)[j].path.Temporary?
    ensures Planned(hash, plan)[i].path != CompleteMarker
  {
  }

  // ---------------------------------------------------------------- verification of a generation

  /** The PTX files present, as the glob finds them. */
  function PtxFiles(files: Files): set<Path> {
    set p | p in files && p.Ptx?
  }

  predicate ArtifactOk(hash: Content -> nat, files: Files, a: Artifact) {
    a.path in files && hash(files[a.path]) == a.digest
  }

  /** What a consumer checks before it uses a generation. */
  predicate Accepts(hash: Content -> nat, files: Files) {
    && CompleteMarker in files && files[CompleteMarker].MarkerText? && StagingManifest in files && PassManifest in files
    && var marker := files[CompleteMarker];
       && marker.manifestDigest == hash(files[StagingManifest])
       && marker.passPath == PassManifest && marker.passDigest == hash(files[PassManifest])
       && files[StagingManifest].ManifestText? && marker.markerStatus == files[StagingManifest].status
       && (forall i :: 0 <= i < |marker.artifacts| ==> ArtifactOk(hash, files, marker.artifacts[i]))
       && PtxFiles(files) == files[StagingManifest].staged
  }

  /** Every planned artifact is there with its planned content, and no other PTX file is. */
  ghost predicate IsComplete(files: Files, plan: Plan) {
    && (forall i :: 0 <= i < |Artifacts(plan)| ==>
          Artifacts(plan)[i].path in files && files[Artifacts(plan)[i].path] == Artifacts(plan)[i].payload)
    && PtxFiles(files) == StagedPaths(plan.staged)
  }

  /** The direction of the equivalence that needs no assumption on the hash. */
  lemma CompleteIsAccepted(hash: Content -> nat, files: Files, plan: Plan)
    requires CompleteMarker in files && files[CompleteMarker] == MarkerOf(hash, plan) && IsComplete(files, plan)
    ensures Accepts(hash, files)
  {
    var entries, marker, n := Artifacts(plan), files[CompleteMarker], |plan.staged|;
    assert entries[n] == Entry(PassManifest, plan.pass) && entries[n + 1] == Entry(StagingManifest, ManifestOf(plan));
    forall i | 0 <= i < |marker.artifacts| ensures ArtifactOk(hash, files, marker.artifacts[i]) {
      assert entries[i].path in files && files[entries[i].path] == entries[i].payload;
    }
  }

  /** With this plan's marker in place, acceptance is exactly completeness. */
  lemma AcceptedIsComplete(hash: Content -> nat, files: Files, plan: Plan)
    requires Injective(hash) && CompleteMarker in files && files[CompleteMarker] == MarkerOf(hash, plan)
    ensures Accepts(hash, files) <==> IsComplete(files, plan)
  {
    var entries, marker := Artifacts(plan), files[CompleteMarker];
    var n := |plan.staged|;
    assert entries[n] == Entry(PassManifest, plan.pass) && entries[n + 1] == Entry(StagingManifest, ManifestOf(plan));
    if Accepts(hash, files) {
      forall i | 0 <= i < |entries| ensures entries[i].path in files && files[entries[i].path] == entries[i].payload {
        assert ArtifactOk(hash, files, marker.artifacts[i]);
      }
      assert IsComplete(files, plan);
    }
    if IsComplete(files, plan) {
      CompleteIsAccepted(hash, files, plan);
    }
  }

  /** One entry of the marker or of the directory that disagrees with the rest is enough to be refused. */
  lemma DisagreementIsRefused(hash: Content -> nat, files: Files)
    requires CompleteMarker in files && files[CompleteMarker].MarkerText?
    requires StagingManifest in files && files[StagingManifest].ManifestText? && PassManifest in files
    ensures var marker, manifest := files[CompleteMarker], files[StagingManifest];
            !Accepts(hash, files) <==>
              || marker.markerStatus != manifest.status || marker.manifestDigest != hash(manifest)
              || marker.passPath != PassManifest || marker.passDigest != hash(files[PassManifest])
              || (exists a :: a in marker.artifacts && (a.path !in files || hash(files[a.path]) != a.digest))
              || (exists p: Path :: p.Ptx? && (p in files <==> p !in manifest.staged))
              || (exists p :: p in manifest.staged && !p.Ptx?)
  {
    var marker, manifest := files[CompleteMarker], files[StagingManifest];
    if forall i :: 0 <= i < |marker.artifacts| ==> ArtifactOk(hash, files, marker.artifacts[i]) {
      forall a | a in marker.artifacts ensures ArtifactOk(hash, files, a) {
      }
    } else {
      var i :| 0 <= i < |marker.artifacts| && !ArtifactOk(hash, files, marker.artifacts[i]);
      assert marker.artifacts[i] in marker.artifacts;
    }
    if PtxFiles(files) != manifest.staged {
      var p :| p in PtxFiles(files) <==> p !in manifest.staged;
      assert (p.Ptx? && (p in files <==> p !in manifest.staged)) || (p in manifest.staged && !p.Ptx?);
    }
  }

  /** Two accepted directories with the same marker hold the same manifests, PTX names and vouched files (collision-free hash). */
  lemma MarkerBindsFiles(hash: Content -> nat, files: Files, other: Files)
    requires Injective(hash) && Accepts(hash, files) && Accepts(hash, other) && files[CompleteMarker] == other[CompleteMarker]
    ensures files[StagingManifest] == other[StagingManifest] && files[PassManifest] == other[PassManifest]
    ensures forall p: Path :: p.Ptx? ==> (p in files <==> p in other)
    ensures forall a :: a in files[CompleteMarker].artifacts ==>
              a.path in files && a.path in other && files[a.path] == other[a.path]
  {
    forall p: Path | p.Ptx? ensures p in files <==> p in other {
      assert p in files <==> p in PtxFiles(files);
      assert p in other <==> p in PtxFiles(other);
    }
    var artifacts := files[CompleteMarker].artifacts;
    forall a | a in artifacts ensures a.path in files && a.path in other && files[a.path] == other[a.path] {
      var i :| 0 <= i < |artifacts| && artifacts[i] == a;
      assert ArtifactOk(hash, files, artifacts[i]) && ArtifactOk(hash, other, artifacts[i]);
    }
  }

  /** A file at a temporary name, whole or torn, makes no difference to a consumer. */
  lemma TemporariesDoNotMatter(hash: Content -> nat, files: Files, target: Path, pid: nat, torn: Content)
    requires forall i :: CompleteMarker in files && files[CompleteMarker].MarkerText? && 0 <= i < |files[CompleteMarker].artifacts|
               ==> !files[CompleteMarker].artifacts[i].path.Temporary?
    ensures Accepts(hash, files[Temporary(target, pid) := torn]) <==> Accepts(hash, files)
  {
    var after := files[Temporary(target, pid) := torn];
    assert PtxFiles(after) == PtxFiles(files);
    if CompleteMarker in files && files[CompleteMarker].MarkerText? {
      var artifacts := files[CompleteMarker].artifacts;
      forall i | 0 <= i < |artifacts| ensures ArtifactOk(hash, after, artifacts[i]) <==> ArtifactOk(hash, files, artifacts[i]) {
      }
    }
  }

  // ---------------------------------------------------------------- publication

  predicate InGeneration(p: Path) {
    match p
    case Temporary(target, _) => InGeneration(target)
    case _ => p.Ptx? || p == StagingManifest || p == CompleteMarker
  }

  ghost predicate EmptyGeneration(files: Files) {
    forall p :: p in files ==> !InGeneration(p)
  }

  /** A directory with files but no marker is left by an interrupted publication and must not be reused. */
  ghost predicate Interrupted(files: Files) {
    !EmptyGeneration(files) && CompleteMarker !in files
  }

  /** Without a marker, one file or leftover of the generation stops every later publication; what lies outside never does. */
  lemma LeftoversStopPublication(files: Files, p: Path, pid: nat, content: Content)
    requires CompleteMarker !in files
    ensures p.Ptx? || p == StagingManifest ==> Interrupted(files[p := content])
    ensures p.Ptx? || p == StagingManifest || p == CompleteMarker ==> Interrupted(files[Temporary(p, pid) := content])
    ensures p == PassManifest || p.Elsewhere? ==>
              && (Interrupted(files[p := content]) <==> Interrupted(files))
              && (Interrupted(files[Temporary(p, pid) := content]) <==> Interrupted(files))
  {
    var there, leftover := files[p := content], files[Temporary(p, pid) := content];
    assert p in there && Temporary(p, pid) in leftover;
    assert InGeneration(Temporary(p, pid)) <==> InGeneration(p);
    if p == PassManifest || p.Elsewhere? {
      assert !InGeneration(p) && !InGeneration(Temporary(p, pid));
      if q :| q in files && InGeneration(q) {
        assert q in there && q in leftover;
      } else {
        assert EmptyGeneration(files) && EmptyGeneration(there) && EmptyGeneration(leftover);
      }
    }
  }

  predicate Differs(files: Files, e: Entry) {
    e.path in files && files[e.path] != e.payload
  }

  ghost predicate SomeDiffers(files: Files, entries: seq<Entry>) {
    exists i :: 0 <= i < |entries| && Differs(files, entries[i])
  }

  /** The files with all entries in place. */
  function Overlay(files: Files, entries: seq<Entry>): Files {
    if entries == [] then files
    else
      var last := entries[|entries| - 1];
      Overlay(files, entries[..|entries| - 1])[last.path := last.payload]
  }

  lemma {:induction false} OverlayHas(files: Files, entries: seq<Entry>, p: Path)
    ensures p in Overlay(files, entries) <==> p in files || exists i :: 0 <= i < |entries| && entries[i].path == p
    ensures (forall i :: 0 <= i < |entries| ==> entries[i].path != p) && p in files ==> Overlay(files, entries)[p] == files[p]
    decreases |entries|
  {
    if entries != [] {
      var front := entries[..|entries| - 1];
      OverlayHas(files, front, p);
      assert forall i :: 0 <= i < |front| ==> front[i] == entries[i];
      if p in Overlay(files, front) && p !in files {
        var i :| 0 <= i < |front| && front[i].path == p;
        assert entries[i].path == p;
      }
    }
  }

  lemma {:induction false} OverlayGives(files: Files, entries: seq<Entry>, i: nat)
    requires i < |entries| && forall j :: i < j < |entries| ==> entries[j].path != entries[i].path
    ensures entries[i].path in Overlay(files, entries) && Overlay(files, entries)[entries[i].path] == entries[i].payload
    decreases |entries|
  {
    if i < |entries| - 1 {
      OverlayGives(files, entries[..|entries| - 1], i);
    }
  }

  /** One entry published: left alone if its path is taken, else put in place, which uses up its temporary name. */
  function Published(files: Files, e: Entry, pid: nat): Files {
    if e.path in files then files else files[e.path := e.payload] - {Temporary(e.path, pid)}
  }

  function PublishAll(files: Files, entries: seq<Entry>, pid: nat): Files {
    if entries == [] then files
    else Published(PublishAll(files, entries[..|entries| - 1], pid), entries[|entries| - 1], pid)
  }

  /** The same files, temporary ones apart. */
  ghost predicate SameFiles(a: Files, b: Files) {
    forall p: Path :: !p.Temporary? ==> (p in a <==> p in b) && (p in a && p in b ==> a[p] == b[p])
  }

  ghost predicate Publishable(files: Files, entries: seq<Entry>) {
    && (forall i :: 0 <= i < |entries| ==> !entries[i].path.Temporary? && !Differs(files, entries[i]))
    && (forall i, j :: 0 <= i < j < |entries| ==> entries[i].path != entries[j].path)
  }

  /** Publishing lays the entries over the files, whatever temporary names were left over. */
  lemma {:induction false} PublishIsOverlay(files: Files, entries: seq<Entry>, pid: nat)
    requires Publishable(files, entries)
    ensures SameFiles(PublishAll(files, entries, pid), Overlay(files, entries))
    decreases |entries|
  {
    if entries != [] {
      var n := |entries| - 1;
      var front := entries[..n];
      assert forall i :: 0 <= i < |front| ==> front[i] == entries[i];
      PublishIsOverlay(files, front, pid);
      OverlayHas(files, front, entries[n].path);
      assert !Differs(files, entries[n]);
    }
  }

  lemma PlannedIsPublishable(hash: Content -> nat, plan: Plan, files: Files)
    requires PlanOk(plan) && !SomeDiffers(files, Planned(hash, plan))
    ensures Publishable(files, Planned(hash, plan)) && Publishable(files, Artifacts(plan))
  {
    var planned, entries := Planned(hash, plan), Artifacts(plan);
    forall i, j | 0 <= i < j < |planned|
      ensures planned[i].path != planned[j].path && !planned[i].path.Temporary? && !planned[j].path.Temporary?
    {
      PlannedPathsDiffer(hash, plan, i, j);
    }
    assert forall i :: 0 <= i < |planned| ==> !planned[i].path.Temporary? && !Differs(files, planned[i]);
    assert forall i :: 0 <= i < |entries| ==> entries[i] == planned[i];
  }

  lemma SameIsComplete(a: Files, b: Files, plan: Plan)
    requires PlanOk(plan) && SameFiles(a, b) && IsComplete(a, plan)
    ensures IsComplete(b, plan)
  {
    var entries := Artifacts(plan);
    assert PtxFiles(a) == PtxFiles(b);
    forall i | 0 <= i < |entries| ensures entries[i].path in b && b[entries[i].path] == entries[i].payload {
      assert entries[i].path in a && !entries[i].path.Temporary?;
    }
  }

  // ---------------------------------------------------------------- what a crash can leave

  /** A state on the way has no marker, or the plan's own. */
  predicate MarkerOrNone(hash: Content -> nat, plan: Plan, state: Files) {
    CompleteMarker in state ==> state[CompleteMarker] == MarkerOf(hash, plan)
  }

  /** The state with the temporary file being written torn. */
  function Torn(state: Files, target: Path, pid: nat, torn: Content): Files {
    state[Temporary(target, pid) := torn]
  }

  /** Whatever a crash tears, a consumer accepts the state only if it holds the whole plan. */
  ghost predicate AcceptedIfWhole(hash: Content -> nat, plan: Plan, pid: nat, state: Files) {
    && (Accepts(hash, state) ==> IsComplete(state, plan))
    && forall target, torn :: Accepts(hash, Torn(state, target, pid, torn)) ==> Accepts(hash, state)
  }

  lemma CrashIsSafe(hash: Content -> nat, plan: Plan, pid: nat, state: Files)
    requires Injective(hash) && PlanOk(plan) && MarkerOrNone(hash, plan, state)
    ensures AcceptedIfWhole(hash, plan, pid, state)
  {
    if CompleteMarker in state {
      AcceptedIsComplete(hash, state, plan);
      forall i | 0 <= i < |state[CompleteMarker].artifacts| ensures !state[CompleteMarker].artifacts[i].path.Temporary? {
        assert Artifacts(plan)[i].path == state[CompleteMarker].artifacts[i].path;
      }
      forall target, torn ensures Accepts(hash, Torn(state, target, pid, torn)) <==> Accepts(hash, state) {
        TemporariesDoNotMatter(hash, state, target, pid, torn);
      }
    }
  }

  /** Without a marker nothing is accepted, torn or not. */
  lemma NoMarkerNoUse(hash: Content -> nat, pid: nat, state: Files)
    requires CompleteMarker !in state
    ensures !AcceptedSomehow(hash, pid, state)
  {
  }

  ghost predicate AcceptedSomehow(hash: Content -> nat, pid: nat, state: Files) {
    Accepts(hash, state) || exists target, torn :: Accepts(hash, Torn(state, target, pid, torn))
  }

  datatype Result = Refused | Verified | Unverified

  class Generation {
    const hash: Content -> nat
    const pid: nat
    var files: Files
    /** Every state the files have been in since the object was made, one per file operation. */
    ghost var history: seq<Files>

    constructor (hash: Content -> nat, pid: nat, files: Files)
      ensures this.hash == hash && this.pid == pid && this.files == files && history == [files]
    {
      this.hash := hash;
      this.pid := pid;
      this.files := files;
      this.history := [files];
    }

    method WriteTemporary(path: Path, payload: Content)
      modifies this
      ensures files == old(files)[Temporary(path, pid) := payload] && history == old(history) + [files]
    {
      files := files[Temporary(path, pid) := payload];
      history := history + [files];
    }

    /** The atomic rename of the temporary file over its target. */
    method Replace(path: Path)
      requires Temporary(path, pid) in files
      modifies this
      ensures files == old(files)[path := old(files)[Temporary(path, pid)]] - {Temporary(path, pid)}
      ensures history == old(history) + [files]
    {
      files := files[path := files[Temporary(path, pid)]] - {Temporary(path, pid)};
      history := history + [files];
    }

    /** Write a file unless it is already there; refuse to overwrite a differing one. */
    method PublishExact(path: Path, payload: Content) returns (ok: bool)
      requires !path.Temporary?
      modifies this
      ensures ok <==> !old(Differs(files, Entry(path, payload)))
      ensures !ok ==> files == old(files) && history == old(history)
      ensures ok ==> files == Published(old(files), Entry(path, payload), pid) && path in files && files[path] == payload
      ensures ok ==> history == old(history) + if path in old(files) then [] else
                       [old(files)[Temporary(path, pid) := payload], files]
    {
      if path in files {
        ok := files[path] == payload;
        return;
      }
      WriteTemporary(path, payload);
      Replace(path);
      assert files == old(files)[path := payload] - {Temporary(path, pid)};
      ok := true;
    }

    method CheckGenerationDirectory() returns (ok: bool)
      ensures ok <==> !Interrupted(files)
    {
      var entries := set p | p in files && InGeneration(p);
      ok := entries == {} || CompleteMarker in files;
      assert entries == {} <==> EmptyGeneration(files) by {
        if entries != {} {
          var p :| p in entries;
        }
        if !EmptyGeneration(files) {
          var p :| p in files && InGeneration(p);
          assert p in entries;
        }
      }
    }

    /** No planned file exists with other content. */
    method PreflightExact(planned: seq<Entry>) returns (ok: bool)
      ensures ok <==> !SomeDiffers(files, planned)
    {
      for i := 0 to |planned|
        invariant forall j :: 0 <= j < i ==> !Differs(files, planned[j])
      {
        if planned[i].path in files && files[planned[i].path] != planned[i].payload {
          assert Differs(files, planned[i]);
          return false;
        }
      }
      return true;
    }

    /** What a consumer runs. */
    method VerifyCompletion() returns (ok: bool)
      ensures ok <==> Accepts(hash, files)
    {
      if CompleteMarker !in files || !files[CompleteMarker].MarkerText? || StagingManifest !in files || PassManifest !in files {
        return false;
      }
      var marker, manifest := files[CompleteMarker], files[StagingManifest];
      if marker.manifestDigest != hash(manifest) || marker.passPath != PassManifest
         || marker.passDigest != hash(files[PassManifest]) || !manifest.ManifestText? || marker.markerStatus != manifest.status
      {
        return false;
      }
      for i := 0 to |marker.artifacts|
        invariant forall j :: 0 <= j < i ==> ArtifactOk(hash, files, marker.artifacts[j])
      {
        if marker.artifacts[i].path !in files || hash(files[marker.artifacts[i].path]) != marker.artifacts[i].digest {
          assert !ArtifactOk(hash, files, marker.artifacts[i]);
          return false;
        }
      }
      var present := set p | p in files && p.Ptx?;
      return present == manifest.staged;
    }

    /**
     Publish a plan.  Nothing changes if the directory was left by an interrupted publication or any
     planned file exists with other content; otherwise the plan is laid over the files, and nothing is
     written if it is in place already.  Crash safety: whatever state on the way a crash leaves, with
     the file being written torn in any way, a consumer accepts it only if it holds the whole plan;
     into an empty generation, only if it is the final state.
     */
    method Stage(plan: Plan) returns (result: Result)
      requires PlanOk(plan)
      modifies this
      ensures result.Refused? <==> old(Interrupted(files)) || old(SomeDiffers(files, Planned(hash, plan)))
      ensures result.Refused? ==> files == old(files) && history == old(history)
      ensures !result.Refused? ==> files == PublishAll(old(files), Planned(hash, plan), pid)
      ensures !result.Refused? ==> SameFiles(files, Overlay(old(files), Planned(hash, plan)))
      ensures !result.Refused? ==> (result.Verified? <==> Accepts(hash, files))
      ensures old(history) <= history
      ensures old(InPlace(files, Planned(hash, plan))) ==> !result.Refused? && files == old(files) && history == old(history)
      ensures Injective(hash) ==> forall k :: |old(history)| <= k < |history| ==> AcceptedIfWhole(hash, plan, pid, history[k])
      ensures old(EmptyGeneration(files)) ==> result != Unverified && (result.Verified? ==> IsComplete(files, plan))
      ensures old(EmptyGeneration(files)) ==> forall k :: |old(history)| <= k < |history| ==>
                (AcceptedSomehow(hash, pid, history[k]) ==> history[k] == files && IsComplete(files, plan))
    {
      hide Accepts, IsComplete, AcceptedIfWhole, AcceptedSomehow, SameFiles, Overlay, Publishable, PublishAll, Planned, MarkerOf, InPlace,
        SomeDiffers;
      var planned := Planned(hash, plan);
      if InPlace(files, planned) {
        PlacedIsFine(hash, plan, files);
        RerunChangesNothing(files, planned, pid);
      }
      var ok := CheckGenerationDirectory();
      if !ok {
        return Refused;
      }
      ok := PreflightExact(planned);
      if !ok {
        return Refused;
      }
      PlannedIsPublishable(hash, plan, files);
      PublishIsOverlay(files, planned, pid);
      MarkerIsLast(hash, plan, files, pid);
      PublishArtifacts(plan);
      var last := planned[|planned| - 1];
      ok := PublishExact(last.path, last.payload);
      if !ok {
        assert false;
      }
      assert files == PublishAll(old(files), planned, pid);
      if old(EmptyGeneration(files)) {
        FreshIsComplete(hash, plan, old(files), files);
        forall k | |old(history)| <= k < |history| && history[k] != files ensures !AcceptedSomehow(hash, pid, history[k]) {
          NoMarkerNoUse(hash, pid, history[k]);
        }
      }
      if Injective(hash) {
        forall k | |old(history)| <= k < |history| ensures AcceptedIfWhole(hash, plan, pid, history[k]) {
          CrashIsSafe(hash, plan, pid, history[k]);
        }
      }
      ok := VerifyCompletion();
      result := if ok then Verified else Unverified;
    }

    /** All planned files but the marker. */
    method PublishArtifacts(plan: Plan)
      requires PlanOk(plan) && !SomeDiffers(files, Planned(hash, plan))
      modifies this
      ensures files == PublishAll(old(files), Artifacts(plan), pid) && old(history) <= history
      ensures old(InPlace(files, Artifacts(plan))) ==> history == old(history)
      ensures forall k :: |old(history)| <= k < |history| ==> SameMarker(old(files), history[k])
    {
      hide PublishAll;
      var entries := Artifacts(plan);
      PublishNothing(files, pid);
      assert entries[..0] == [];
      for i := 0 to |entries|
        invariant files == PublishAll(old(files), entries[..i], pid) && old(history) <= history
        invariant old(InPlace(files, entries)) ==> history == old(history)
        invariant forall k :: |old(history)| <= k < |history| ==> SameMarker(old(files), history[k])
      {
        assert entries[i] == Planned(hash, plan)[i];
        NotYetThere(hash, plan, old(files), i, pid);
        PublishOneMore(old(files), entries, i, pid);
        var ok := PublishExact(entries[i].path, entries[i].payload);
        if !ok {
          assert false;
        }
      }
      assert entries[..|entries|] == entries;
    }
  }

  /** All entries are there as planned. */
  ghost predicate InPlace(files: Files, entries: seq<Entry>) {
    forall i :: 0 <= i < |entries| ==> entries[i].path in files && files[entries[i].path] == entries[i].payload
  }

  /** Neither state has a marker, or both have the same. */
  predicate SameMarker(a: Files, b: Files) {
    && (CompleteMarker in a <==> CompleteMarker in b)
    && (CompleteMarker in a && CompleteMarker in b ==> a[CompleteMarker] == b[CompleteMarker])
  }

  lemma PublishNothing(files: Files, pid: nat)
    ensures PublishAll(files, [], pid) == files
  {
  }

  lemma PublishOneMore(files: Files, entries: seq<Entry>, i: nat, pid: nat)
    requires i < |entries|
    ensures PublishAll(files, entries[..i + 1], pid) == Published(PublishAll(files, entries[..i], pid), entries[i], pid)
  {
    assert entries[..i + 1][..i] == entries[..i];
  }

  lemma PlacedIsFine(hash: Content -> nat, plan: Plan, files: Files)
    requires InPlace(files, Planned(hash, plan))
    ensures CompleteMarker in files && !SomeDiffers(files, Planned(hash, plan)) && InPlace(files, Artifacts(plan))
  {
    var planned, entries := Planned(hash, plan), Artifacts(plan);
    assert planned[|entries|].path == CompleteMarker;
    forall i | 0 <= i < |entries| ensures entries[i].path in files && files[entries[i].path] == entries[i].payload {
      assert planned[i] == entries[i];
    }
  }

  /** Publishing what is already in place changes nothing. */
  lemma {:induction false} RerunChangesNothing(files: Files, entries: seq<Entry>, pid: nat)
    requires InPlace(files, entries)
    ensures PublishAll(files, entries, pid) == files
    decreases |entries|
  {
    if entries != [] {
      RerunChangesNothing(files, entries[..|entries| - 1], pid);
    }
  }

  /** Publishing the earlier entries leaves the marker and the path of entry `i` as they were. */
  lemma NotYetThere(hash: Content -> nat, plan: Plan, files: Files, i: nat, pid: nat)
    requires PlanOk(plan) && i < |Artifacts(plan)| && !SomeDiffers(files, Planned(hash, plan))
    ensures var before := PublishAll(files, Artifacts(plan)[..i], pid);
            var e := Artifacts(plan)[i];
            && !Differs(before, e) && (e.path in before <==> e.path in files) && !e.path.Temporary? && e.path != CompleteMarker
            && SameMarker(files, before)
  {
    hide PublishAll, Overlay;
    var planned, front := Planned(hash, plan), Artifacts(plan)[..i];
    PlannedIsPublishable(hash, plan, files);
    assert forall j :: 0 <= j < |front| ==> front[j] == Artifacts(plan)[j];
    assert Publishable(files, front);
    PublishIsOverlay(files, front, pid);
    assert forall j :: 0 <= j < |Artifacts(plan)| ==> planned[j] == Artifacts(plan)[j];
    PlannedPathsDiffer(hash, plan, i, |planned| - 1);
    forall j | 0 <= j < |front| ensures front[j].path != planned[i].path && front[j].path != CompleteMarker {
      PlannedPathsDiffer(hash, plan, j, i);
    }
    OverlayHas(files, front, planned[i].path);
    OverlayHas(files, front, CompleteMarker);
    assert !Differs(files, planned[i]);
  }

  lemma MarkerIsLast(hash: Content -> nat, plan: Plan, files: Files, pid: nat)
    requires PlanOk(plan) && !SomeDiffers(files, Planned(hash, plan))
    ensures Planned(hash, plan) != []
    ensures var planned, before := Planned(hash, plan), PublishAll(files, Artifacts(plan), pid);
            var last := planned[|planned| - 1];
            && last == Entry(CompleteMarker, MarkerOf(hash, plan)) && planned[..|planned| - 1] == Artifacts(plan)
            && !Differs(before, last) && SameMarker(files, before) && MarkerOrNone(hash, plan, before)
            && PublishAll(files, planned, pid) == Published(before, last, pid)
  {
    hide Overlay;
    var planned := Planned(hash, plan);
    var last := |planned| - 1;
    assert planned[..last] == Artifacts(plan);
    forall j | 0 <= j < last ensures Artifacts(plan)[j].path != CompleteMarker {
      PlannedPathsDiffer(hash, plan, j, last);
    }
    PlannedIsPublishable(hash, plan, files);
    PublishIsOverlay(files, Artifacts(plan), pid);
    OverlayHas(files, Artifacts(plan), CompleteMarker);
    assert !Differs(files, planned[last]);
  }

  // ---------------------------------------------------------------- crash safety and reruns

  /** Laid over an empty generation, the plan is complete, and a consumer accepts it. */
  lemma FreshIsComplete(hash: Content -> nat, plan: Plan, files: Files, after: Files)
    requires PlanOk(plan) && EmptyGeneration(files) && SameFiles(after, Overlay(files, Planned(hash, plan)))
    ensures IsComplete(after, plan) && Accepts(hash, after)
  {
    var planned, laid, entries := Planned(hash, plan), Overlay(files, Planned(hash, plan)), Artifacts(plan);
    forall i | 0 <= i < |planned| ensures planned[i].path in laid && laid[planned[i].path] == planned[i].payload {
      forall j | i < j < |planned| ensures planned[j].path != planned[i].path {
        PlannedPathsDiffer(hash, plan, i, j);
      }
      OverlayGives(files, planned, i);
    }
    assert forall i :: 0 <= i < |entries| ==> planned[i] == entries[i];
    assert PtxFiles(laid) == StagedPaths(plan.staged) by {
      forall p ensures p in PtxFiles(laid) <==> p in StagedPaths(plan.staged) {
        FreshPtx(hash, plan, files, p);
      }
    }
    assert planned[|planned| - 1] == Entry(CompleteMarker, MarkerOf(hash, plan));
    SameIsComplete(laid, after, plan);
    CompleteIsAccepted(hash, after, plan);
  }

  lemma FreshPtx(hash: Content -> nat, plan: Plan, files: Files, p: Path)
    requires PlanOk(plan) && EmptyGeneration(files)
    ensures p in PtxFiles(Overlay(files, Planned(hash, plan))) <==> p in StagedPaths(plan.staged)
  {
    var planned, n := Planned(hash, plan), |plan.staged|;
    OverlayHas(files, planned, p);
    assert forall i :: 0 <= i < n ==> planned[i] == plan.staged[i];
    if i :| 0 <= i < |planned| && planned[i].path == p && p.Ptx? {
      assert i < n;
    }
    if p in StagedPaths(plan.staged) {
      var i :| 0 <= i < n && plan.staged[i].path == p;
      assert planned[i].path == p;
    }
  }
}
