/** The structural checks of `ci/deps/check-deps.py`: `check_file`, which
    walks every family, OS and packager of a dependency document, and the
    completeness pass `main` runs afterwards on the client and server
    documents. */
module DepsSchema {

  import opened Py
  import opened Schema

  /** `data[k]` for a key known to be present; `Null` otherwise. */
  function Field(data: Entries, k: string): Value {
    match Lookup(data, k)
    case Some(v) => v
    case None => Null
  }

  function OsVerdict(family: string, os: string, osEntry: Value): Verdict {
    if !osEntry.Dict? then Reject(NotMapping(["build", family, os]))
    else if "packagers" !in Keys(osEntry.entries) then Reject(Missing(["build", family, os, "packagers"]))
    else PackagersVerdict(["build", family, os, "packagers"], Field(osEntry.entries, "packagers"))
  }

  function FamilyVerdict(family: string, familyEntry: Value): Verdict {
    if !familyEntry.Dict? then Reject(NotMapping(["build", family]))
    else
      var oses := familyEntry.entries;
      FirstFailure(seq(|oses|, i requires 0 <= i < |oses| => OsVerdict(family, oses[i].0, oses[i].1)))
  }

  /** `for family, family_entry in build.items(): ...` */
  function BuildVerdict(build: Value): Verdict {
    match Items(build)
    case Raised(e) => Crash(e)
    case Ok(fams) => FirstFailure(seq(|fams|, i requires 0 <= i < |fams| => FamilyVerdict(fams[i].0, fams[i].1)))
  }

  /** `check_file` on a loaded document (the root is a mapping; `load_yaml`
      exits 2 otherwise, which `DepsCheck.Main` models). */
  function CheckFile(data: Entries): Verdict {
    FirstFailure(CheckFileSteps(data))
  }

  /** The requirements of `check_file`, in the order it evaluates them. */
  function CheckFileSteps(data: Entries): seq<Verdict> {
    var runtime := Field(data, "runtime");
    [
      Require(Ok("build" in Keys(data)), Missing(["build"])),
      Require(Ok("runtime" in Keys(data)), Missing(["runtime"])),
      BuildVerdict(Field(data, "build")),
      Require(In("libs", runtime), Missing(["runtime", "libs"])),
      Require(In("tools", runtime), Missing(["runtime", "tools"])),
      if "version_notes" in Keys(data) then Require(Ok(Field(data, "version_notes").Dict?), NotMapping(["version_notes"]))
      else Accept
    ]
  }

  // ---- The document shape `check_file` accepts, stated directly ----

  predicate OsWellFormed(osEntry: Value) {
    osEntry.Dict? && "packagers" in Keys(osEntry.entries) && PackagersWellFormed(Field(osEntry.entries, "packagers"))
  }

  predicate FamilyWellFormed(familyEntry: Value) {
    familyEntry.Dict? && forall i :: 0 <= i < |familyEntry.entries| ==> OsWellFormed(familyEntry.entries[i].1)
  }

  predicate BuildWellFormed(build: Value) {
    build.Dict? && forall i :: 0 <= i < |build.entries| ==> FamilyWellFormed(build.entries[i].1)
  }

  /** `build` and `runtime` present; every family and OS entry a mapping
      with `packagers`; every packager with `libs.mandatory`; `runtime`
      with `libs` and `tools`; `version_notes`, when present, a mapping. */
  predicate WellFormed(data: Entries) {
    && "build" in Keys(data)
    && "runtime" in Keys(data)
    && BuildWellFormed(Field(data, "build"))
    && In("libs", Field(data, "runtime")) == Ok(true)
    && In("tools", Field(data, "runtime")) == Ok(true)
    && ("version_notes" in Keys(data) ==> Field(data, "version_notes").Dict?)
  }

  lemma OsAccepts(family: string, os: string, osEntry: Value)
    ensures OsVerdict(family, os, osEntry).Accept? <==> OsWellFormed(osEntry)
  {
    if osEntry.Dict? && "packagers" in Keys(osEntry.entries) {
      PackagersAccept(["build", family, os, "packagers"], Field(osEntry.entries, "packagers"));
    }
  }

  lemma FamilyAccepts(family: string, familyEntry: Value)
    ensures FamilyVerdict(family, familyEntry).Accept? <==> FamilyWellFormed(familyEntry)
  {
    if familyEntry.Dict? {
      var oses := familyEntry.entries;
      var vs := seq(|oses|, i requires 0 <= i < |oses| => OsVerdict(family, oses[i].0, oses[i].1));
      forall i | 0 <= i < |oses| ensures vs[i].Accept? <==> OsWellFormed(oses[i].1) {
        OsAccepts(family, oses[i].0, oses[i].1);
      }
    }
  }

  lemma BuildAccepts(build: Value)
    ensures BuildVerdict(build).Accept? <==> BuildWellFormed(build)
  {
    if build.Dict? {
      var fams := build.entries;
      var vs := seq(|fams|, i requires 0 <= i < |fams| => FamilyVerdict(fams[i].0, fams[i].1));
      forall i | 0 <= i < |fams|
        ensures vs[i].Accept? <==> FamilyWellFormed(fams[i].1)
      {
        FamilyAccepts(fams[i].0, fams[i].1);
      }
    }
  }

  /** `check_file` accepts exactly the well-formed documents. */
  lemma CheckFileAcceptsWellFormed(data: Entries)
    ensures CheckFile(data).Accept? <==> WellFormed(data)
  {
    BuildAccepts(Field(data, "build"));
    var vs := CheckFileSteps(data);
    assert |vs| == 6;
    assert vs[0].Accept? <==> "build" in Keys(data);
    assert vs[1].Accept? <==> "runtime" in Keys(data);
    assert vs[2].Accept? <==> BuildWellFormed(Field(data, "build"));
    assert vs[3].Accept? <==> In("libs", Field(data, "runtime")) == Ok(true);
    assert vs[4].Accept? <==> In("tools", Field(data, "runtime")) == Ok(true);
    assert vs[5].Accept? <==> ("version_notes" in Keys(data) ==> Field(data, "version_notes").Dict?);
  }

  /** Fail-fast: without `build`, the first requirement already fails, and
      nothing else in the document matters. */
  lemma MissingBuildReported(data: Entries)
    requires "build" !in Keys(data)
    ensures CheckFile(data) == Reject(Missing(["build"]))
  {
    FirstFailureAt(CheckFileSteps(data), 0);
  }

  /** A document whose build tree is well formed but whose runtime lacks
      `tools` is rejected naming exactly `runtime.tools`. */
  lemma MissingRuntimeToolsReported(data: Entries)
    requires "build" in Keys(data) && "runtime" in Keys(data)
    requires BuildWellFormed(Field(data, "build"))
    requires Field(data, "runtime").Dict?
    requires "libs" in Keys(Field(data, "runtime").entries)
    requires "tools" !in Keys(Field(data, "runtime").entries)
    ensures CheckFile(data) == Reject(Missing(["runtime", "tools"]))
  {
    BuildAccepts(Field(data, "build"));
    var vs := CheckFileSteps(data);
    var runtime := Field(data, "runtime");
    assert In("libs", runtime) == Ok(true);
    assert In("tools", runtime) == Ok(false);
    assert vs[0].Accept? && vs[1].Accept? && vs[2].Accept? && vs[3].Accept?;
    assert vs[4] == Reject(Missing(["runtime", "tools"]));
    FirstFailureAt(vs, 4);
  }

  // ---- The completeness pass of `main` ----

  /** Which document a completeness error is about. */
  datatype Doc = Client | Server

  /** `"libs" not in pkg or "tools" not in pkg`, then `"mandatory" not in pkg["libs"]`. */
  function PackagerComplete(doc: Doc, family: string, os: string, name: string, pkg: Value): Verdict {
    var hasLibs := In("libs", pkg);
    if hasLibs.Raised? then Crash(hasLibs.exc)
    else if !hasLibs.value then Reject(Missing([DocName(doc), family, os, name, "libs/tools"]))
    else
      var hasTools := In("tools", pkg);
      if hasTools.Raised? then Crash(hasTools.exc)
      else if !hasTools.value then Reject(Missing([DocName(doc), family, os, name, "libs/tools"]))
      else
        match Index(pkg, "libs")
        case Raised(e) => Crash(e)
        case Ok(libs) => Require(In("mandatory", libs), Missing([DocName(doc), family, os, name, "libs", "mandatory"]))
  }

  function DocName(doc: Doc): string {
    match doc
    case Client => "client"
    case Server => "server"
  }

  function OsComplete(doc: Doc, family: string, os: string, osEntry: Value): Verdict {
    match Get(osEntry, "packagers", Dict([]))
    case Raised(e) => Crash(e)
    case Ok(packagers) =>
      match Items(packagers)
      case Raised(e) => Crash(e)
      case Ok(ps) => FirstFailure(seq(|ps|, i requires 0 <= i < |ps| => PackagerComplete(doc, family, os, ps[i].0, ps[i].1)))
  }

  function FamilyComplete(doc: Doc, family: string, familyEntry: Value): Verdict {
    match Items(familyEntry)
    case Raised(e) => Crash(e)
    case Ok(oses) => FirstFailure(seq(|oses|, i requires 0 <= i < |oses| => OsComplete(doc, family, oses[i].0, oses[i].1)))
  }

  /** One document's share of the completeness pass. */
  function DocComplete(doc: Doc, data: Entries): Verdict {
    var runtime := match Get(Dict(data), "runtime", Dict([])) case Ok(r) => r case Raised(_) => Dict([]);
    FirstFailure([
      match Index(Dict(data), "build")
      case Raised(e) => Crash(e)
      case Ok(build) =>
        match Items(build)
        case Raised(e) => Crash(e)
        case Ok(fams) => FirstFailure(seq(|fams|, i requires 0 <= i < |fams| => FamilyComplete(doc, fams[i].0, fams[i].1))),
      match (In("libs", runtime), In("tools", runtime))
      case (Ok(true), Ok(true)) => Accept
      case (Raised(e), _) => Crash(e)
      case (Ok(false), _) => Reject(Missing([DocName(doc), "runtime"]))
      case (Ok(true), Raised(e)) => Crash(e)
      case (Ok(true), Ok(false)) => Reject(Missing([DocName(doc), "runtime"]))
    ])
  }

  /** The completeness pass over the client, then the server document. */
  function Completeness(client: Entries, server: Entries): Verdict {
    FirstFailure([DocComplete(Client, client), DocComplete(Server, server)])
  }

  /** Every packager in the build tree also lists `tools`. */
  predicate PackagersHaveTools(data: Entries) {
    var fams := EntriesOf(Field(data, "build"));
    forall i :: 0 <= i < |fams| ==> FamilyHasTools(fams[i].1)
  }

  predicate FamilyHasTools(familyEntry: Value) {
    var oses := EntriesOf(familyEntry);
    forall i :: 0 <= i < |oses| ==> OsHasTools(oses[i].1)
  }

  predicate OsHasTools(osEntry: Value) {
    var ps := EntriesOf(Field(EntriesOf(osEntry), "packagers"));
    forall i :: 0 <= i < |ps| ==> "tools" in Keys(EntriesOf(ps[i].1))
  }

  /** A packager `check_file` accepted fails completeness only for want of `tools`. */
  lemma PackagerCompleteWellFormed(doc: Doc, family: string, os: string, name: string, pkg: Value)
    requires PackagerWellFormed(pkg)
    ensures PackagerComplete(doc, family, os, name, pkg).Accept? <==> "tools" in Keys(pkg.entries)
    ensures "tools" !in Keys(pkg.entries) ==>
      PackagerComplete(doc, family, os, name, pkg) == Reject(Missing([DocName(doc), family, os, name, "libs/tools"]))
  {
    assert Index(pkg, "libs") == Ok(Lookup(pkg.entries, "libs").value);
  }

  lemma OsCompleteWellFormed(doc: Doc, family: string, os: string, osEntry: Value)
    requires OsWellFormed(osEntry)
    ensures OsComplete(doc, family, os, osEntry).Accept? <==> OsHasTools(osEntry)
  {
    var packagers := Field(osEntry.entries, "packagers");
    assert Get(osEntry, "packagers", Dict([])) == Ok(packagers);
    var ps := packagers.entries;
    var vs := seq(|ps|, i requires 0 <= i < |ps| => PackagerComplete(doc, family, os, ps[i].0, ps[i].1));
    assert OsComplete(doc, family, os, osEntry) == FirstFailure(vs);
    forall i | 0 <= i < |ps| ensures vs[i].Accept? <==> "tools" in Keys(EntriesOf(ps[i].1)) {
      PackagerCompleteWellFormed(doc, family, os, ps[i].0, ps[i].1);
    }
  }

  lemma FamilyCompleteWellFormed(doc: Doc, family: string, familyEntry: Value)
    requires FamilyWellFormed(familyEntry)
    ensures FamilyComplete(doc, family, familyEntry).Accept? <==> FamilyHasTools(familyEntry)
  {
    var oses := familyEntry.entries;
    var vs := seq(|oses|, i requires 0 <= i < |oses| => OsComplete(doc, family, oses[i].0, oses[i].1));
    assert FamilyComplete(doc, family, familyEntry) == FirstFailure(vs);
    forall i | 0 <= i < |oses| ensures vs[i].Accept? <==> OsHasTools(oses[i].1) {
      OsCompleteWellFormed(doc, family, oses[i].0, oses[i].1);
    }
  }

  /** After `check_file` has accepted a document, the completeness pass can
      fail on it for one reason only: a packager without `tools`. */
  lemma DocCompleteWellFormed(doc: Doc, data: Entries)
    requires WellFormed(data)
    ensures DocComplete(doc, data).Accept? <==> PackagersHaveTools(data)
  {
    var build := Field(data, "build");
    assert Index(Dict(data), "build") == Ok(build);
    assert Get(Dict(data), "runtime", Dict([])) == Ok(Field(data, "runtime"));
    var fams := build.entries;
    var vs := seq(|fams|, i requires 0 <= i < |fams| => FamilyComplete(doc, fams[i].0, fams[i].1));
    forall i | 0 <= i < |fams| ensures vs[i].Accept? <==> FamilyHasTools(fams[i].1) {
      FamilyCompleteWellFormed(doc, fams[i].0, fams[i].1);
    }
    assert FirstFailure(vs).Accept? <==> PackagersHaveTools(data);
  }
}
