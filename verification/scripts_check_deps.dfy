/** `scripts/ci/check-deps.py`: the older, fixed-shape structure check of
    the two build documents. It names the Linux runner (`linux_github`,
    `ubuntu_latest`) and the three BSD systems it expects, asks for
    `libs.mandatory` under every packager it finds there, and for the
    `runtime` and optional `version_notes` keys. Every test is Python's
    `in`, so a list or a string passes a test that only a mapping survives
    once it is indexed. */
module ScriptsCheckDeps {

  import opened Py
  import opened Schema

  /** The BSD systems the check walks, in its order. */
  const BsdOses: seq<string> := ["freebsd", "netbsd", "openbsd"]

  // ---- check_file ----

  /** An entry holding `packagers`: `path` is where it sits in the document,
      `tag` how the per-packager messages name it. */
  function OsVerdict(path: seq<string>, tag: seq<string>, osEntry: Value): Verdict {
    FirstFailure([
      Require(In("packagers", osEntry), Missing(path + ["packagers"])),
      match Index(osEntry, "packagers")
      case Raised(e) => Crash(e)
      case Ok(packagers) => PackagersVerdict(tag + ["packagers"], packagers)
    ])
  }

  /** `build.linux_github`: `ubuntu_latest` and its packagers. */
  function LinuxVerdict(linux: Value): Verdict {
    FirstFailure([
      Require(In("ubuntu_latest", linux), Missing(["build", "linux_github", "ubuntu_latest"])),
      match Index(linux, "ubuntu_latest")
      case Raised(e) => Crash(e)
      case Ok(ubuntu) => OsVerdict(["build", "linux_github", "ubuntu_latest"], ["linux_github", "ubuntu_latest"], ubuntu)
    ])
  }

  /** One BSD system under `build.bsd`. */
  function BsdOsVerdict(bsd: Value, os: string): Verdict {
    FirstFailure([
      Require(In(os, bsd), Missing(["build", "bsd", os])),
      match Index(bsd, os)
      case Raised(e) => Crash(e)
      case Ok(osEntry) => OsVerdict(["build", "bsd", os], ["bsd", os], osEntry)
    ])
  }

  function BsdVerdict(bsd: Value): Verdict {
    FirstFailure(seq(|BsdOses|, i requires 0 <= i < |BsdOses| => BsdOsVerdict(bsd, BsdOses[i])))
  }

  /** The `build` section: both keys are asked for before either is read. */
  function BuildVerdict(build: Value): Verdict {
    FirstFailure([
      Require(In("linux_github", build), Missing(["build", "linux_github"])),
      Require(In("bsd", build), Missing(["build", "bsd"])),
      match Index(build, "linux_github")
      case Raised(e) => Crash(e)
      case Ok(linux) => LinuxVerdict(linux),
      match Index(build, "bsd")
      case Raised(e) => Crash(e)
      case Ok(bsd) => BsdVerdict(bsd)
    ])
  }

  function RuntimeVerdict(runtime: Value): Verdict {
    FirstFailure([
      Require(In("libs", runtime), Missing(["runtime", "libs"])),
      Require(In("tools", runtime), Missing(["runtime", "tools"]))
    ])
  }

  /** `version_notes` is optional; when present, `linux` and `bsd` must be in it. */
  function NotesVerdict(data: Entries): Verdict {
    match Lookup(data, "version_notes")
    case None => Accept
    case Some(notes) =>
      FirstFailure([
        Require(In("linux", notes), Missing(["version_notes", "linux"])),
        Require(In("bsd", notes), Missing(["version_notes", "bsd"]))
      ])
  }

  /** `check_file` on a loaded document, in the order the script asks. The
      two top-level tests are on a mapping and cannot raise. */
  function CheckFile(data: Entries): Verdict {
    if "build" !in Keys(data) then Reject(Missing(["build"]))
    else if "runtime" !in Keys(data) then Reject(Missing(["runtime"]))
    else
      FirstFailure([
        BuildVerdict(At(Dict(data), "build")),
        RuntimeVerdict(At(Dict(data), "runtime")),
        NotesVerdict(data)
      ])
  }

  // ---- The accepted shape ----

  /** The value under key `k` of a mapping known to hold it. */
  function At(v: Value, k: string): Value
    requires v.Dict? && k in Keys(v.entries)
  {
    Lookup(v.entries, k).value
  }

  /** An entry that is a mapping whose `packagers` are well formed. */
  predicate OsWellFormed(osEntry: Value) {
    osEntry.Dict? && "packagers" in Keys(osEntry.entries) && PackagersWellFormed(At(osEntry, "packagers"))
  }

  predicate LinuxWellFormed(linux: Value) {
    linux.Dict? && "ubuntu_latest" in Keys(linux.entries) && OsWellFormed(At(linux, "ubuntu_latest"))
  }

  predicate BsdWellFormed(bsd: Value) {
    bsd.Dict? &&
    forall i :: 0 <= i < |BsdOses| ==> BsdOses[i] in Keys(bsd.entries) && OsWellFormed(At(bsd, BsdOses[i]))
  }

  predicate BuildWellFormed(build: Value) {
    build.Dict? && "linux_github" in Keys(build.entries) && "bsd" in Keys(build.entries) &&
    LinuxWellFormed(At(build, "linux_github")) && BsdWellFormed(At(build, "bsd"))
  }

  /** `runtime` is only ever tested with `in`, so a list naming `libs` and
      `tools` will do. */
  predicate RuntimeWellFormed(runtime: Value) {
    In("libs", runtime) == Ok(true) && In("tools", runtime) == Ok(true)
  }

  predicate NotesWellFormed(data: Entries) {
    "version_notes" in Keys(data) ==>
      In("linux", At(Dict(data), "version_notes")) == Ok(true) &&
      In("bsd", At(Dict(data), "version_notes")) == Ok(true)
  }

  predicate WellFormed(data: Entries) {
    "build" in Keys(data) && "runtime" in Keys(data) &&
    BuildWellFormed(At(Dict(data), "build")) && RuntimeWellFormed(At(Dict(data), "runtime")) &&
    NotesWellFormed(data)
  }

  // ---- The check accepts exactly the accepted shape ----

  lemma IndexAt(v: Value, k: string)
    requires v.Dict? && k in Keys(v.entries)
    ensures Index(v, k) == Ok(At(v, k))
  {
  }

  lemma OsAccepts(path: seq<string>, tag: seq<string>, osEntry: Value)
    ensures OsVerdict(path, tag, osEntry).Accept? <==> OsWellFormed(osEntry)
  {
    var vs := [
      Require(In("packagers", osEntry), Missing(path + ["packagers"])),
      match Index(osEntry, "packagers")
      case Raised(e) => Crash(e)
      case Ok(packagers) => PackagersVerdict(tag + ["packagers"], packagers)
    ];
    assert OsVerdict(path, tag, osEntry) == FirstFailure(vs);
    assert FirstFailure(vs).Accept? <==> vs[0].Accept? && vs[1].Accept?;
    if osEntry.Dict? && "packagers" in Keys(osEntry.entries) {
      IndexAt(osEntry, "packagers");
      PackagersAccept(tag + ["packagers"], At(osEntry, "packagers"));
    }
  }

  lemma LinuxAccepts(linux: Value)
    ensures LinuxVerdict(linux).Accept? <==> LinuxWellFormed(linux)
  {
    var vs := [
      Require(In("ubuntu_latest", linux), Missing(["build", "linux_github", "ubuntu_latest"])),
      match Index(linux, "ubuntu_latest")
      case Raised(e) => Crash(e)
      case Ok(ubuntu) => OsVerdict(["build", "linux_github", "ubuntu_latest"], ["linux_github", "ubuntu_latest"], ubuntu)
    ];
    assert LinuxVerdict(linux) == FirstFailure(vs);
    assert FirstFailure(vs).Accept? <==> vs[0].Accept? && vs[1].Accept?;
    if linux.Dict? && "ubuntu_latest" in Keys(linux.entries) {
      IndexAt(linux, "ubuntu_latest");
      OsAccepts(["build", "linux_github", "ubuntu_latest"], ["linux_github", "ubuntu_latest"], At(linux, "ubuntu_latest"));
    }
  }

  lemma BsdOsAccepts(bsd: Value, os: string)
    ensures BsdOsVerdict(bsd, os).Accept? <==>
      bsd.Dict? && os in Keys(bsd.entries) && OsWellFormed(At(bsd, os))
  {
    var vs := [
      Require(In(os, bsd), Missing(["build", "bsd", os])),
      match Index(bsd, os)
      case Raised(e) => Crash(e)
      case Ok(osEntry) => OsVerdict(["build", "bsd", os], ["bsd", os], osEntry)
    ];
    assert BsdOsVerdict(bsd, os) == FirstFailure(vs);
    assert FirstFailure(vs).Accept? <==> vs[0].Accept? && vs[1].Accept?;
    if bsd.Dict? && os in Keys(bsd.entries) {
      IndexAt(bsd, os);
      OsAccepts(["build", "bsd", os], ["bsd", os], At(bsd, os));
    }
  }

  lemma BsdAccepts(bsd: Value)
    ensures BsdVerdict(bsd).Accept? <==> BsdWellFormed(bsd)
  {
    var vs := seq(|BsdOses|, i requires 0 <= i < |BsdOses| => BsdOsVerdict(bsd, BsdOses[i]));
    forall i | 0 <= i < |BsdOses|
      ensures vs[i].Accept? <==> bsd.Dict? && BsdOses[i] in Keys(bsd.entries) && OsWellFormed(At(bsd, BsdOses[i]))
    {
      BsdOsAccepts(bsd, BsdOses[i]);
    }
    assert BsdVerdict(bsd).Accept? ==> bsd.Dict? by {
      if BsdVerdict(bsd).Accept? {
        assert vs[0].Accept?;
      }
    }
  }

  lemma BuildAccepts(build: Value)
    ensures BuildVerdict(build).Accept? <==> BuildWellFormed(build)
  {
    var vs := [
      Require(In("linux_github", build), Missing(["build", "linux_github"])),
      Require(In("bsd", build), Missing(["build", "bsd"])),
      match Index(build, "linux_github")
      case Raised(e) => Crash(e)
      case Ok(linux) => LinuxVerdict(linux),
      match Index(build, "bsd")
      case Raised(e) => Crash(e)
      case Ok(bsd) => BsdVerdict(bsd)
    ];
    assert BuildVerdict(build) == FirstFailure(vs);
    assert FirstFailure(vs).Accept? <==> vs[0].Accept? && vs[1].Accept? && vs[2].Accept? && vs[3].Accept?;
    if build.Dict? && "linux_github" in Keys(build.entries) && "bsd" in Keys(build.entries) {
      IndexAt(build, "linux_github");
      IndexAt(build, "bsd");
      LinuxAccepts(At(build, "linux_github"));
      BsdAccepts(At(build, "bsd"));
    }
  }

  lemma RuntimeAccepts(runtime: Value)
    ensures RuntimeVerdict(runtime).Accept? <==> RuntimeWellFormed(runtime)
  {
    var vs := [
      Require(In("libs", runtime), Missing(["runtime", "libs"])),
      Require(In("tools", runtime), Missing(["runtime", "tools"]))
    ];
    assert FirstFailure(vs).Accept? <==> vs[0].Accept? && vs[1].Accept?;
  }

  lemma NotesAccepts(data: Entries)
    ensures NotesVerdict(data).Accept? <==> NotesWellFormed(data)
  {
    if "version_notes" in Keys(data) {
      var notes := At(Dict(data), "version_notes");
      assert Lookup(data, "version_notes") == Some(notes);
      var vs := [
        Require(In("linux", notes), Missing(["version_notes", "linux"])),
        Require(In("bsd", notes), Missing(["version_notes", "bsd"]))
      ];
      assert FirstFailure(vs).Accept? <==> vs[0].Accept? && vs[1].Accept?;
    }
  }

  /** `check_file` passes a loaded document exactly when it has the shape. */
  lemma CheckFileAccepts(data: Entries)
    ensures CheckFile(data).Accept? <==> WellFormed(data)
  {
    if "build" in Keys(data) && "runtime" in Keys(data) {
      var vs := [
        BuildVerdict(At(Dict(data), "build")),
        RuntimeVerdict(At(Dict(data), "runtime")),
        NotesVerdict(data)
      ];
      assert CheckFile(data) == FirstFailure(vs);
      assert FirstFailure(vs).Accept? <==> vs[0].Accept? && vs[1].Accept? && vs[2].Accept?;
      BuildAccepts(At(Dict(data), "build"));
      RuntimeAccepts(At(Dict(data), "runtime"));
      NotesAccepts(data);
    }
  }

  /** Fail-fast order: with a well-formed `build`, a `runtime` that lacks
      `libs` is what gets reported, whatever `version_notes` holds. */
  lemma RuntimeReportedAfterBuild(data: Entries)
    requires "build" in Keys(data) && "runtime" in Keys(data)
    requires BuildWellFormed(At(Dict(data), "build"))
    requires In("libs", At(Dict(data), "runtime")) == Ok(false)
    ensures CheckFile(data) == Reject(Missing(["runtime", "libs"]))
  {
    var vs := [
      BuildVerdict(At(Dict(data), "build")),
      RuntimeVerdict(At(Dict(data), "runtime")),
      NotesVerdict(data)
    ];
    BuildAccepts(At(Dict(data), "build"));
    var rs := [
      Require(In("libs", At(Dict(data), "runtime")), Missing(["runtime", "libs"])),
      Require(In("tools", At(Dict(data), "runtime")), Missing(["runtime", "tools"]))
    ];
    assert CheckFile(data) == FirstFailure(vs);
    assert RuntimeVerdict(At(Dict(data), "runtime")) == FirstFailure(rs);
    FirstFailureAt(rs, 0);
    FirstFailureAt(vs, 1);
  }

  // ---- main ----

  /** `main()` on the client and server documents. */
  function Main(client: Document, server: Document): (code: int)
    ensures code == 0 || code == 1 || code == 2
    ensures client.Absent? || server.Absent? ==> code == 2
    ensures code == 0 <==>
      Load(client).Some? && Load(server).Some? &&
      CheckFile(Load(client).value).Accept? && CheckFile(Load(server).value).Accept?
  {
    if client.Absent? || server.Absent? then 2
    else
      var r := CheckFiles([client, server], CheckFile);
      assert [client, server][0] == client && [client, server][1] == server;
      if r.Some? then r.value else 0
  }

  /** The script exits 0 exactly when both documents load as mappings of the
      accepted shape. */
  lemma MainAcceptsWellFormed(client: Document, server: Document)
    ensures Main(client, server) == 0 <==>
      Load(client).Some? && Load(server).Some? &&
      WellFormed(Load(client).value) && WellFormed(Load(server).value)
  {
    if Load(client).Some? && Load(server).Some? {
      CheckFileAccepts(Load(client).value);
      CheckFileAccepts(Load(server).value);
    }
  }
}
