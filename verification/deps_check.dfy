/** The content checks `main` of `ci/deps/check-deps.py` runs once the
    documents are structurally sound: each build packager's resolved lists
    against the package scripts' candidate expectations, the BSD package
    manager alignment and key sanity, the `packages-from-yaml` coverage of
    every build combination, the workflow checks, and the exit code. */
module DepsCheck {

  import opened Text
  import opened Py
  import opened Schema
  import opened DepsSchema
  import opened DepsResolve
  import opened DepsReconcile
  import opened DepsWorkflow
  import opened DepsCMake
  import opened DepsRuntime

  /** What `main` learns from the shell side: the two package-script
      functions, `parse_bsd_pkgmgrs` (OS name to `pkg` or `pkg_add`, in the
      order the installer's `case` lists them) and `parse_ldap_pkg_name`. */
  datatype Scripts = Scripts(
    linux: LinuxPackages,
    bsd: BsdPackages,
    bsdPkgmgrs: seq<(string, string)>,
    ldapPkg: LdapPackageName)

  /** What `parse_ldap_pkg_name` can return: `openldap-client` when the
      installer mentions it, `None` otherwise. The source tests the name for
      truthiness; no empty name can arise, so testing `Some?` agrees. */
  type LdapPackageName = p: Option<string> | p == None || p == Some("openldap-client") witness None

  /** `parse_bsd_pkgmgr_keys()` */
  const BsdPkgmgrKeys: set<string> := {"pkg", "pkgin", "pkg_add"}

  /** `parse_linux_families()`: the client build families except `bsd`. */
  function LinuxFamilies(client: Entries): (r: Result<set<string>>)
    ensures r.Ok? <==> GetOr(client, "build", Dict([])).Dict?
    ensures r.Ok? ==> forall f :: f in r.value <==> f != "bsd" && f in Keys(GetOr(client, "build", Dict([])).entries)
  {
    var build := GetOr(client, "build", Dict([]));
    var fams :- Items(build);
    Ok(set f | f in Keys(fams) && f != "bsd")
  }

  // ---- One packager ----

  /** `server["build"][family][os]["packagers"][name]["libs"]["mandatory"]`
      when the server has that family and OS, `[]` otherwise; a server
      without the packager itself raises. */
  function ServerMandatory(server: Entries, family: string, os: string, name: string): (r: Result<Value>)
    ensures Index(Dict(server), "build").Ok? && In(family, Index(Dict(server), "build").value) == Ok(false) ==>
      r == Ok(List([]))
  {
    var build :- Index(Dict(server), "build");
    var hasFamily :- In(family, build);
    if !hasFamily then Ok(List([]))
    else
      var familyEntry :- Index(build, family);
      var hasOs :- In(os, familyEntry);
      if !hasOs then Ok(List([]))
      else
        var osEntry :- Index(familyEntry, os);
        var packagers :- Index(osEntry, "packagers");
        var pkg :- Index(packagers, name);
        var libs :- Index(pkg, "libs");
        Index(libs, "mandatory")
  }

  /** The resolved client and server lists of one packager, as `main`
      computes them before comparing. */
  function Actual(depMap: Entries, server: Entries, family: string, os: string, name: string, pkg: Value)
    : Result<(seq<Value>, seq<Value>)>
  {
    var libs :- Index(pkg, "libs");
    var rawClient :- Index(libs, "mandatory");
    var rawServer :- ServerMandatory(server, family, os, name);
    var itemsClient :- Iter(rawClient);
    var actualClient :- ResolvePackages(itemsClient, depMap, family, os, name);
    var itemsServer :- Iter(rawServer);
    var actualServer :- ResolvePackages(itemsServer, depMap, family, os, name);
    Ok((actualClient, actualServer))
  }

  /** One packager's contribution to `ok`: Linux families reconcile against
      the four flag combinations, BSD package managers against the two snmp
      settings, any other packager only gets a note. */
  function PackagerCheck(s: Scripts, linuxFamilies: set<string>, depMap: Entries, server: Entries,
                         family: string, os: string, name: string, pkg: Value): (r: Result<bool>)
    ensures r.Ok? ==> Actual(depMap, server, family, os, name, pkg).Ok?
    ensures Actual(depMap, server, family, os, name, pkg).Ok? && family !in linuxFamilies && name !in BsdPkgmgrKeys ==>
      r == Ok(true)
    ensures Actual(depMap, server, family, os, name, pkg).Ok? && family in linuxFamilies ==>
      var (c, v) := Actual(depMap, server, family, os, name, pkg).value;
      var es := LinuxExpected(s.linux, family, os);
      && (r.Ok? <==> AllStrings(c) && AllStrings(v) && es.Ok?)
      && (r.Ok? ==> (r.value <==>
            (exists j :: 0 <= j < 4 && ToSet(es.value[j].client) == ToSet(TokenStrings(c).value)) &&
            (exists j :: 0 <= j < 4 && ToSet(es.value[j].server) == ToSet(TokenStrings(v).value))))
    ensures Actual(depMap, server, family, os, name, pkg).Ok? && family !in linuxFamilies && name in BsdPkgmgrKeys ==>
      var (c, v) := Actual(depMap, server, family, os, name, pkg).value;
      && (r.Ok? <==> AllStrings(c) && AllStrings(v) && BsdExpected(s.bsd, s.ldapPkg, name, os, TokenStrings(v).value).Ok?)
      && (r.Ok? ==>
            var es := BsdExpected(s.bsd, s.ldapPkg, name, os, TokenStrings(v).value).value;
            (r.value <==>
              (exists j :: 0 <= j < 2 && ToSet(es[j].client) == ToSet(TokenStrings(c).value)) &&
              (exists j :: 0 <= j < 2 && ToSet(es[j].server) == ToSet(TokenStrings(v).value))))
  {
    var actual :- Actual(depMap, server, family, os, name, pkg);
    var (actualClient, actualServer) := actual;
    if family in linuxFamilies then
      var c :- TokenStrings(actualClient);
      var v :- TokenStrings(actualServer);
      var es :- LinuxExpected(s.linux, family, os);
      Ok(PackagerOk(es, c, v))
    else if name in BsdPkgmgrKeys then
      var c :- TokenStrings(actualClient);
      var v :- TokenStrings(actualServer);
      var es :- BsdExpected(s.bsd, s.ldapPkg, name, os, v);
      Ok(PackagerOk(es, c, v))
    else Ok(true)
  }

  // ---- The BSD package manager alignment ----

  /** The package manager the BSD installer uses for `os`: the value of the
      first `parse_bsd_pkgmgrs` entry whose name equals `os` ignoring case. */
  function InstallerPkgmgr(pkgmgrs: seq<(string, string)>, os: string): (r: Option<string>)
    ensures r.Some? <==> exists i :: 0 <= i < |pkgmgrs| && LowerString(pkgmgrs[i].0) == LowerString(os)
    ensures r.Some? ==> exists i :: (0 <= i < |pkgmgrs| && LowerString(pkgmgrs[i].0) == LowerString(os) &&
      pkgmgrs[i].1 == r.value && forall j :: 0 <= j < i ==> LowerString(pkgmgrs[j].0) != LowerString(os))
  {
    if |pkgmgrs| == 0 then None
    else if LowerString(pkgmgrs[0].0) == LowerString(os) then Some(pkgmgrs[0].1)
    else
      var r := InstallerPkgmgr(pkgmgrs[1..], os);
      assert forall i :: 1 <= i < |pkgmgrs| ==> pkgmgrs[i] == pkgmgrs[1..][i - 1];
      assert r.Some? ==> exists i :: (0 <= i < |pkgmgrs| && LowerString(pkgmgrs[i].0) == LowerString(os) &&
        pkgmgrs[i].1 == r.value && forall j :: 0 <= j < i ==> LowerString(pkgmgrs[j].0) != LowerString(os))
      by {
        if r.Some? {
          var i :| 0 <= i < |pkgmgrs[1..]| && LowerString(pkgmgrs[1..][i].0) == LowerString(os) &&
            pkgmgrs[1..][i].1 == r.value && forall j :: 0 <= j < i ==> LowerString(pkgmgrs[1..][j].0) != LowerString(os);
          assert pkgmgrs[i + 1] == pkgmgrs[1..][i];
        }
      }
      r
  }

  /** The packagers an OS entry lists: `os_entry.get("packagers", {})`. */
  function PackagersOf(osEntry: Value): Result<Value> {
    Get(osEntry, "packagers", Dict([]))
  }

  /** For an OS the BSD installer knows, its packagers must include the
      manager the installer picks (an empty pick is not checked). */
  function BsdAligned(pkgmgrs: seq<(string, string)>, os: string, osEntry: Value): (r: Result<bool>)
    ensures r == Ok(false) <==>
      && InstallerPkgmgr(pkgmgrs, os).Some? && InstallerPkgmgr(pkgmgrs, os).value != ""
      && PackagersOf(osEntry).Ok? && PackagersOf(osEntry).value.Dict?
      && InstallerPkgmgr(pkgmgrs, os).value !in Keys(PackagersOf(osEntry).value.entries)
    ensures InstallerPkgmgr(pkgmgrs, os).None? ==> r == Ok(true)
  {
    match InstallerPkgmgr(pkgmgrs, os)
    case None => Ok(true)
    case Some(expected) =>
      if expected == "" then Ok(true)
      else
        var packagers :- PackagersOf(osEntry);
        var ps :- Items(packagers);
        Ok(expected in Keys(ps))
  }

  // ---- The walk over the client build tree ----

  function OsCheck(s: Scripts, lf: set<string>, depMap: Entries, server: Entries,
                   family: string, os: string, osEntry: Value): (r: Result<bool>)
    ensures r == Ok(true) <==>
      && BsdAligned(s.bsdPkgmgrs, os, osEntry) == Ok(true)
      && PackagersOf(osEntry).Ok? && PackagersOf(osEntry).value.Dict?
      && var ps := PackagersOf(osEntry).value.entries;
         forall k :: 0 <= k < |ps| ==> PackagerCheck(s, lf, depMap, server, family, os, ps[k].0, ps[k].1) == Ok(true)
  {
    var aligned :- BsdAligned(s.bsdPkgmgrs, os, osEntry);
    var packagers :- PackagersOf(osEntry);
    var ps :- Items(packagers);
    var rs := seq(|ps|, k requires 0 <= k < |ps| => PackagerCheck(s, lf, depMap, server, family, os, ps[k].0, ps[k].1));
    assert forall k :: 0 <= k < |ps| ==> rs[k] == PackagerCheck(s, lf, depMap, server, family, os, ps[k].0, ps[k].1);
    var each :- Conjoin(rs);
    Ok(aligned && each)
  }

  function FamilyCheck(s: Scripts, lf: set<string>, depMap: Entries, server: Entries,
                       family: string, familyEntry: Value): (r: Result<bool>)
    ensures r == Ok(true) <==> (familyEntry.Dict? &&
      forall j :: 0 <= j < |familyEntry.entries| ==>
        OsCheck(s, lf, depMap, server, family, familyEntry.entries[j].0, familyEntry.entries[j].1) == Ok(true))
  {
    var oses :- Items(familyEntry);
    var rs := seq(|oses|, j requires 0 <= j < |oses| => OsCheck(s, lf, depMap, server, family, oses[j].0, oses[j].1));
    assert forall j :: 0 <= j < |oses| ==> rs[j] == OsCheck(s, lf, depMap, server, family, oses[j].0, oses[j].1);
    Conjoin(rs)
  }

  /** The build section of `main`: every packager of every OS of every
      family of the client document. */
  function BuildCheck(s: Scripts, client: Entries, server: Entries, depMap: Entries): (r: Result<bool>)
    ensures r == Ok(true) <==> ("build" in Keys(client) && LinuxFamilies(client).Ok? && Field(client, "build").Dict? &&
      var fams := Field(client, "build").entries;
      forall i :: 0 <= i < |fams| ==>
        FamilyCheck(s, LinuxFamilies(client).value, depMap, server, fams[i].0, fams[i].1) == Ok(true))
  {
    var lf :- LinuxFamilies(client);
    if "build" !in Keys(client) then Raised(KeyError)
    else
      assert GetOr(client, "build", Dict([])) == Field(client, "build");
      var fams := Field(client, "build").entries;
      var rs := seq(|fams|, i requires 0 <= i < |fams| => FamilyCheck(s, lf, depMap, server, fams[i].0, fams[i].1));
      assert forall i :: 0 <= i < |fams| ==> rs[i] == FamilyCheck(s, lf, depMap, server, fams[i].0, fams[i].1);
      Conjoin(rs)
  }

  /** A clean build section means every packager in the client tree passed
      its own reconciliation. */
  lemma BuildCheckPassesEachPackager(s: Scripts, client: Entries, server: Entries, depMap: Entries, i: nat, j: nat, k: nat)
    requires BuildCheck(s, client, server, depMap) == Ok(true)
    requires Field(client, "build").Dict? && i < |Field(client, "build").entries|
    requires var fe := Field(client, "build").entries[i].1; fe.Dict? && j < |fe.entries|
    requires var oe := Field(client, "build").entries[i].1.entries[j].1;
             PackagersOf(oe).Ok? && PackagersOf(oe).value.Dict? && k < |PackagersOf(oe).value.entries|
    ensures LinuxFamilies(client).Ok?
    ensures var (family, fe) := Field(client, "build").entries[i];
            var (os, oe) := fe.entries[j];
            var (name, pkg) := PackagersOf(oe).value.entries[k];
            PackagerCheck(s, LinuxFamilies(client).value, depMap, server, family, os, name, pkg) == Ok(true)
  {
    var (family, fe) := Field(client, "build").entries[i];
    var (os, oe) := fe.entries[j];
    assert FamilyCheck(s, LinuxFamilies(client).value, depMap, server, family, fe) == Ok(true);
    assert OsCheck(s, LinuxFamilies(client).value, depMap, server, family, os, oe) == Ok(true);
  }

  // ---- Packager key sanity ----

  /** The packager names under client OS entries whose name is one the BSD
      installer knows (ignoring case), in walk order. */
  function BsdPackagerNames(pkgmgrs: seq<(string, string)>, oses: Entries): (r: Result<seq<string>>)
    ensures r.Ok? <==> forall j :: 0 <= j < |oses| ==> OsPackagerNames(pkgmgrs, oses[j].0, oses[j].1).Ok?
    ensures r.Ok? ==> forall n :: n in r.value <==>
      exists j :: 0 <= j < |oses| && n in OsPackagerNames(pkgmgrs, oses[j].0, oses[j].1).value
  {
    var rs := seq(|oses|, j requires 0 <= j < |oses| => OsPackagerNames(pkgmgrs, oses[j].0, oses[j].1));
    assert forall j :: 0 <= j < |oses| ==> rs[j] == OsPackagerNames(pkgmgrs, oses[j].0, oses[j].1);
    Concat(rs)
  }

  /** The packager names of one OS entry, when the BSD installer knows the
      OS; none otherwise. */
  function OsPackagerNames(pkgmgrs: seq<(string, string)>, os: string, osEntry: Value): (r: Result<seq<string>>)
    ensures r.Ok? <==>
      (InstallerPkgmgr(pkgmgrs, os).Some? ==> PackagersOf(osEntry).Ok? && PackagersOf(osEntry).value.Dict?)
    ensures r.Ok? ==> forall n :: n in r.value <==>
      InstallerPkgmgr(pkgmgrs, os).Some? && PackagersOf(osEntry).Ok? && n in Keys(EntriesOf(PackagersOf(osEntry).value))
  {
    if InstallerPkgmgr(pkgmgrs, os).Some? then
      var packagers :- PackagersOf(osEntry);
      var ps :- Items(packagers);
      Ok(Keys(ps))
    else Ok([])
  }

  /** The same over every family of the client build; each family entry
      must be a mapping. */
  function BsdPackagerNamesAll(pkgmgrs: seq<(string, string)>, fams: Entries): (r: Result<seq<string>>)
    ensures r.Ok? <==> forall i :: 0 <= i < |fams| ==>
      fams[i].1.Dict? && BsdPackagerNames(pkgmgrs, fams[i].1.entries).Ok?
    ensures r.Ok? ==> forall n :: n in r.value <==>
      exists i :: 0 <= i < |fams| && n in BsdPackagerNames(pkgmgrs, fams[i].1.entries).value
  {
    if |fams| == 0 then Ok([])
    else
      var oses :- Items(fams[0].1);
      var here :- BsdPackagerNames(pkgmgrs, oses);
      var rest :- BsdPackagerNamesAll(pkgmgrs, fams[1..]);
      Ok(here + rest)
  }

  /** `sorted(bsd_packagers - bsd_pkgmgr_keys)`: the BSD packager names the
      BSD package script does not support. */
  function UnknownBsdPackagers(names: seq<string>): (unknown: seq<string>)
    ensures StrictlySorted(unknown)
    ensures forall n :: n in unknown <==> n in names && n !in BsdPkgmgrKeys
  {
    SortedSet(Without(names, BsdPkgmgrKeys))
  }

  /** The key-sanity section: `ok` survives exactly when every BSD packager
      name is one of `pkg`, `pkgin`, `pkg_add`. */
  function KeySanity(s: Scripts, client: Entries): (r: Result<bool>)
    ensures r.Ok? ==> BsdPackagerNamesAll(s.bsdPkgmgrs, EntriesOf(Field(client, "build"))).Ok?
    ensures r.Ok? ==> (r.value <==>
      forall n :: n in BsdPackagerNamesAll(s.bsdPkgmgrs, EntriesOf(Field(client, "build"))).value ==> n in BsdPkgmgrKeys)
  {
    var build :- Index(Dict(client), "build");
    var fams :- Items(build);
    var names :- BsdPackagerNamesAll(s.bsdPkgmgrs, fams);
    var unknown := UnknownBsdPackagers(names);
    assert |unknown| > 0 ==> unknown[0] in unknown;
    Ok(|unknown| == 0)
  }

  // ---- gather_build_combinations and the packages-from-yaml coverage ----

  /** The packagers of an OS entry as `gather_build_combinations` sees
      them: none unless the entry and its `packagers` are mappings. */
  function PackagerEntries(osEntry: Value): Entries {
    if osEntry.Dict? then EntriesOf(GetOr(osEntry.entries, "packagers", Dict([]))) else []
  }

  function OsCombos(family: string, oses: Entries): (r: seq<(string, string, string)>)
    ensures forall t :: t in r <==>
      t.0 == family && exists j :: 0 <= j < |oses| && oses[j].0 == t.1 && t.2 in Keys(PackagerEntries(oses[j].1))
  {
    if |oses| == 0 then []
    else
      assert forall j :: 1 <= j < |oses| ==> oses[j] == oses[1..][j - 1];
      var ps := PackagerEntries(oses[0].1);
      var here := seq(|ps|, k requires 0 <= k < |ps| => (family, oses[0].0, ps[k].0));
      assert forall t :: t in here <==> t.0 == family && t.1 == oses[0].0 && t.2 in Keys(ps) by {
        forall t: (string, string, string) | t.0 == family && t.1 == oses[0].0 && t.2 in Keys(ps) ensures t in here {
          var k :| 0 <= k < |ps| && Keys(ps)[k] == t.2;
          assert here[k] == t;
        }
      }
      here + OsCombos(family, oses[1..])
  }

  /** Whether the build tree of `data` has the packager path `t`: a family
      mapping, an OS mapping under it, and a key of its `packagers` mapping. */
  predicate IsCombo(fams: Entries, t: (string, string, string)) {
    exists i :: 0 <= i < |fams| && fams[i].0 == t.0 && t in OsCombos(t.0, EntriesOf(fams[i].1))
  }

  function FamilyCombos(fams: Entries): (r: seq<(string, string, string)>)
    ensures forall t :: t in r <==> IsCombo(fams, t)
  {
    if |fams| == 0 then []
    else
      assert forall i :: 1 <= i < |fams| ==> fams[i] == fams[1..][i - 1];
      var here := if fams[0].1.Dict? then OsCombos(fams[0].0, fams[0].1.entries) else [];
      assert forall t :: t in here <==> fams[0].0 == t.0 && t in OsCombos(t.0, EntriesOf(fams[0].1));
      here + FamilyCombos(fams[1..])
  }

  /** `gather_build_combinations(data)` */
  function GatherBuildCombinations(data: Entries): (r: Result<seq<(string, string, string)>>)
    ensures r.Ok? <==> GetOr(data, "build", Dict([])).Dict?
    ensures r.Ok? ==> forall t :: t in r.value <==> IsCombo(GetOr(data, "build", Dict([])).entries, t)
  {
    var fams :- Items(GetOr(data, "build", Dict([])));
    Ok(FamilyCombos(fams))
  }

  /** Every `(family, os, pkgmgr)` path found is exactly a packager that
      exists under a family mapping and an OS mapping. */
  lemma CombosArePackagerPaths(fams: Entries, t: (string, string, string))
    ensures IsCombo(fams, t) <==>
      exists i :: 0 <= i < |fams| && fams[i].0 == t.0 && fams[i].1.Dict? &&
        exists j :: 0 <= j < |fams[i].1.entries| && fams[i].1.entries[j].0 == t.1 &&
          t.2 in Keys(PackagerEntries(fams[i].1.entries[j].1))
  {
  }

  /** `packages-from-yaml.sh` as `check_packages_from_yaml_mapping` uses it:
      whether the script exists, and whether it exits 0 for
      `--variant V --family F --os O --pkgmgr P --enable-ldap ON --enable-snmp ON`. */
  datatype YamlRunner = YamlRunner(present: bool, succeeds: (string, string, string, string) -> bool)

  /** `check_packages_from_yaml_mapping(data, variant)` */
  function YamlMappingOk(data: Entries, variant: string, y: YamlRunner): (r: Result<bool>)
    ensures r.Ok? <==> GetOr(data, "build", Dict([])).Dict?
    ensures r.Ok? ==> (r.value <==>
      forall t :: IsCombo(GetOr(data, "build", Dict([])).entries, t) ==> y.present && y.succeeds(variant, t.0, t.1, t.2))
  {
    var combos :- GatherBuildCombinations(data);
    if |combos| == 0 then Ok(true)
    else
      assert combos[0] in combos;
      if !y.present then Ok(false)
      else Ok(forall i :: 0 <= i < |combos| ==> y.succeeds(variant, combos[i].0, combos[i].1, combos[i].2))
  }

  // ---- main ----

  /** Everything `main` reads: the three build documents, `deps-map.yaml`,
      `deps-meta.yaml`, the two CMake files, the workflow files, and the
      shell-side collaborators. `shellcheckOk` is the outcome of
      `check_shell_scripts`. */
  datatype Repo = Repo(
    client: Document, localClient: Document, server: Document,
    depMap: Document, depMeta: Document,
    cmake: CMakeFiles,
    workflows: seq<Workflow>,
    scripts: Scripts, locator: ScriptLocator, yamlRunner: YamlRunner,
    shellcheckOk: bool)

  /** `load_deps_map` / `load_deps_meta`: an absent file reads as `{}`. */
  function LoadOptional(d: Document): (r: Option<Entries>)
    ensures d.Absent? ==> r == Some([])
    ensures !d.Absent? ==> r == Load(d)
  {
    if d.Absent? then Some([]) else Load(d)
  }

  /** The CMake linkage section, over the Linux families `main` computed
      before the build section. */
  function CMakeCheck(repo: Repo, client: Entries, server: Entries, depMap: Entries): (r: Result<bool>)
    ensures r.Ok? ==> r.value
    ensures LinuxFamilies(client).Ok? ==> r == CMakeSection(LinuxFamilies(client).value, repo.cmake, client, server, depMap)
  {
    var lf :- LinuxFamilies(client);
    CMakeSection(lf, repo.cmake, client, server, depMap)
  }

  /** `ok &= section()` for the next section: an exception propagates,
      otherwise the flags are and-ed. */
  function AndThen(acc: Result<bool>, next: Result<bool>): (r: Result<bool>)
    ensures r == Ok(true) <==> acc == Ok(true) && next == Ok(true)
    ensures r.Raised? <==> acc.Raised? || next.Raised?
  {
    if acc.Raised? then acc
    else if next.Raised? then next
    else Ok(acc.value && next.value)
  }

  /** The sections of `main` after completeness, in the order it runs them
      (build, CMake linkage, runtime tools, workflows, key sanity and the
      `packages-from-yaml` coverage of the client and the server) folded
      into `ok`, followed by the shell lint; an exception in any section
      ends the script with status 1. */
  function ContentOk(repo: Repo, client: Entries, server: Entries, depMap: Entries, depMeta: Entries): (r: Result<bool>)
    ensures r.Ok? && !repo.shellcheckOk ==> !r.value
  {
    var build := BuildCheck(repo.scripts, client, server, depMap);
    var cmake := CMakeCheck(repo, client, server, depMap);
    var runtime := RuntimeSection(client, server);
    var workflows := WorkflowsOk(repo.locator, depMeta, Field(client, "build"), repo.workflows);
    var keys := KeySanity(repo.scripts, client);
    var yamlClient := YamlMappingOk(client, "client", repo.yamlRunner);
    var yamlServer := YamlMappingOk(server, "server", repo.yamlRunner);
    var sections := AndThen(AndThen(AndThen(AndThen(AndThen(AndThen(
      build, cmake), runtime), workflows), keys), yamlClient), yamlServer);
    if sections.Raised? then sections else Ok(sections.value && repo.shellcheckOk)
  }

  /** The content checks pass exactly when every section and the shell
      lint pass, and raise exactly when some section raises. */
  lemma ContentOkSections(repo: Repo, client: Entries, server: Entries, depMap: Entries, depMeta: Entries)
    ensures ContentOk(repo, client, server, depMap, depMeta) == Ok(true) <==>
      && repo.shellcheckOk
      && BuildCheck(repo.scripts, client, server, depMap) == Ok(true)
      && CMakeCheck(repo, client, server, depMap) == Ok(true)
      && RuntimeSection(client, server) == Ok(true)
      && WorkflowsOk(repo.locator, depMeta, Field(client, "build"), repo.workflows) == Ok(true)
      && KeySanity(repo.scripts, client) == Ok(true)
      && YamlMappingOk(client, "client", repo.yamlRunner) == Ok(true)
      && YamlMappingOk(server, "server", repo.yamlRunner) == Ok(true)
    ensures ContentOk(repo, client, server, depMap, depMeta).Raised? <==>
      || BuildCheck(repo.scripts, client, server, depMap).Raised?
      || CMakeCheck(repo, client, server, depMap).Raised?
      || RuntimeSection(client, server).Raised?
      || WorkflowsOk(repo.locator, depMeta, Field(client, "build"), repo.workflows).Raised?
      || KeySanity(repo.scripts, client).Raised?
      || YamlMappingOk(client, "client", repo.yamlRunner).Raised?
      || YamlMappingOk(server, "server", repo.yamlRunner).Raised?
  {
  }

  /** `main()` of `ci/deps/check-deps.py`: 2 for a missing or unreadable data
      file, 1 for a structural, completeness or content failure (or an
      exception), 0 otherwise. */
  function Main(repo: Repo): (code: int)
    ensures code == 0 || code == 1 || code == 2
    ensures (repo.client.Absent? || repo.localClient.Absent? || repo.server.Absent?) ==> code == 2
  {
    if repo.client.Absent? || repo.localClient.Absent? || repo.server.Absent? then 2
    else
      match CheckFiles([repo.client, repo.localClient, repo.server], CheckFile)
      case Some(code) => code
      case None =>
        assert Load(repo.client).Some? && Load(repo.server).Some? by {
          assert [repo.client, repo.localClient, repo.server][0] == repo.client;
          assert [repo.client, repo.localClient, repo.server][2] == repo.server;
        }
        var client := Load(repo.client).value;
        var server := Load(repo.server).value;
        match (LoadOptional(repo.depMap), LoadOptional(repo.depMeta))
        case (None, _) => 2
        case (_, None) => 2
        case (Some(depMap), Some(depMeta)) =>
          if !Completeness(client, server).Accept? then 1
          else
            match ContentOk(repo, client, server, depMap, depMeta)
            case Raised(_) => 1
            case Ok(ok) => if ok then 0 else 1
  }

  /** The stages a run passes on its way to exit status 0. */
  lemma MainStages(repo: Repo)
    requires Main(repo) == 0
    ensures CheckFiles([repo.client, repo.localClient, repo.server], CheckFile).None?
    ensures Load(repo.client).Some? && Load(repo.server).Some?
    ensures LoadOptional(repo.depMap).Some? && LoadOptional(repo.depMeta).Some?
    ensures Completeness(Load(repo.client).value, Load(repo.server).value).Accept?
    ensures ContentOk(repo, Load(repo.client).value, Load(repo.server).value,
                      LoadOptional(repo.depMap).value, LoadOptional(repo.depMeta).value) == Ok(true)
    ensures CMakeCheck(repo, Load(repo.client).value, Load(repo.server).value, LoadOptional(repo.depMap).value) == Ok(true)
    ensures RuntimeSection(Load(repo.client).value, Load(repo.server).value) == Ok(true)
  {
    var docs := [repo.client, repo.localClient, repo.server];
    assert !(repo.client.Absent? || repo.localClient.Absent? || repo.server.Absent?);
    assert CheckFiles(docs, CheckFile).None?;
    assert docs[0] == repo.client && docs[2] == repo.server;
    ContentOkBuild(repo, Load(repo.client).value, Load(repo.server).value,
                   LoadOptional(repo.depMap).value, LoadOptional(repo.depMeta).value);
  }

  /** Conversely, once the documents are loaded, well formed and complete,
      the exit status is 0 exactly when the content checks pass, and 1
      otherwise (a failed check or an exception). */
  lemma MainAfterCompleteness(repo: Repo)
    requires !(repo.client.Absent? || repo.localClient.Absent? || repo.server.Absent?)
    requires CheckFiles([repo.client, repo.localClient, repo.server], CheckFile).None?
    requires Load(repo.client).Some? && Load(repo.server).Some?
    requires LoadOptional(repo.depMap).Some? && LoadOptional(repo.depMeta).Some?
    requires Completeness(Load(repo.client).value, Load(repo.server).value).Accept?
    ensures Main(repo) == if ContentOk(repo, Load(repo.client).value, Load(repo.server).value,
                                       LoadOptional(repo.depMap).value, LoadOptional(repo.depMeta).value) == Ok(true)
                          then 0 else 1
  {
    var docs := [repo.client, repo.localClient, repo.server];
    assert docs[0] == repo.client && docs[2] == repo.server;
    MainAfterLoad(repo, Load(repo.client).value, Load(repo.server).value,
                  LoadOptional(repo.depMap).value, LoadOptional(repo.depMeta).value);
  }

  /** `main` past loading is the completeness verdict, then the content
      checks. */
  lemma MainAfterLoad(repo: Repo, client: Entries, server: Entries, depMap: Entries, depMeta: Entries)
    requires !(repo.client.Absent? || repo.localClient.Absent? || repo.server.Absent?)
    requires CheckFiles([repo.client, repo.localClient, repo.server], CheckFile).None?
    requires Load(repo.client) == Some(client) && Load(repo.server) == Some(server)
    requires LoadOptional(repo.depMap) == Some(depMap) && LoadOptional(repo.depMeta) == Some(depMeta)
    ensures Main(repo) == if !Completeness(client, server).Accept? then 1
      else match ContentOk(repo, client, server, depMap, depMeta)
        case Raised(_) => 1
        case Ok(ok) => if ok then 0 else 1
  {
  }

  /** The CMake section indexes the server build without a guard: a client
      whose only family is a Linux family with one OS and one packager, whose
      mandatory list resolves, against a server build without that family,
      makes `main` raise and exit with status 1. */
  lemma UnguardedServerFails(repo: Repo, family: string, os: string, name: string, items: seq<Value>)
    requires !(repo.client.Absent? || repo.localClient.Absent? || repo.server.Absent?)
    requires CheckFiles([repo.client, repo.localClient, repo.server], CheckFile).None?
    requires Load(repo.client).Some? && Load(repo.server).Some?
    requires LoadOptional(repo.depMap).Some? && LoadOptional(repo.depMeta).Some?
    requires Completeness(Load(repo.client).value, Load(repo.server).value).Accept?
    requires family != "bsd"
    requires Lookup(Load(repo.client).value, "build") ==
      Some(Dict([(family, Dict([(os, Dict([("packagers", Dict([(name, Dict([("libs", Dict([("mandatory", List(items))]))]))]))]))]))]))
    requires ResolvePackages(items, LoadOptional(repo.depMap).value, family, os, name).Ok?
    requires !ServerHasFamily(Load(repo.server).value, family)
    ensures Main(repo) == 1
  {
    var client := Load(repo.client).value;
    var server := Load(repo.server).value;
    var depMap := LoadOptional(repo.depMap).value;
    var depMeta := LoadOptional(repo.depMeta).value;
    SingleFamilyIsLinux(client, family, os, name, items);
    UnguardedServerRaises(LinuxFamilies(client).value, depMap, client, server, family, os, name, items);
    assert CMakeCheck(repo, client, server, depMap).Raised?;
    CMakeRaisesContent(repo, client, server, depMap, depMeta);
    MainAfterCompleteness(repo);
  }

  /** A client build with one family other than `bsd` names it among the
      Linux families. */
  lemma SingleFamilyIsLinux(client: Entries, family: string, os: string, name: string, items: seq<Value>)
    requires family != "bsd"
    requires Lookup(client, "build") ==
      Some(Dict([(family, Dict([(os, Dict([("packagers", Dict([(name, Dict([("libs", Dict([("mandatory", List(items))]))]))]))]))]))]))
    ensures LinuxFamilies(client).Ok? && family in LinuxFamilies(client).value
  {
    assert GetOr(client, "build", Dict([])) == Lookup(client, "build").value;
    assert Keys(Lookup(client, "build").value.entries)[0] == family;
  }

  /** An exception in the CMake section ends the content checks. */
  lemma CMakeRaisesContent(repo: Repo, client: Entries, server: Entries, depMap: Entries, depMeta: Entries)
    requires CMakeCheck(repo, client, server, depMap).Raised?
    ensures ContentOk(repo, client, server, depMap, depMeta).Raised?
  {
    ContentOkSections(repo, client, server, depMap, depMeta);
  }

  /** A clean content pass includes a clean build section. */
  lemma ContentOkBuild(repo: Repo, client: Entries, server: Entries, depMap: Entries, depMeta: Entries)
    requires ContentOk(repo, client, server, depMap, depMeta) == Ok(true)
    ensures BuildCheck(repo.scripts, client, server, depMap) == Ok(true)
    ensures CMakeCheck(repo, client, server, depMap) == Ok(true)
    ensures RuntimeSection(client, server) == Ok(true)
    ensures KeySanity(repo.scripts, client) == Ok(true)
    ensures repo.shellcheckOk
  {
    ContentOkSections(repo, client, server, depMap, depMeta);
  }

  /** Exit status 0 certifies the three documents are well formed, that
      every packager of the client and server build trees lists `tools`, and
      that every content section held. */
  lemma MainSuccess(repo: Repo)
    requires Main(repo) == 0
    ensures Load(repo.client).Some? && Load(repo.localClient).Some? && Load(repo.server).Some?
    ensures WellFormed(Load(repo.client).value) && WellFormed(Load(repo.localClient).value) && WellFormed(Load(repo.server).value)
    ensures PackagersHaveTools(Load(repo.client).value) && PackagersHaveTools(Load(repo.server).value)
    ensures BuildCheck(repo.scripts, Load(repo.client).value, Load(repo.server).value,
                       LoadOptional(repo.depMap).value) == Ok(true)
  {
    MainStages(repo);
    LoadedDocsWellFormed(repo);
    ContentOkBuild(repo, Load(repo.client).value, Load(repo.server).value,
                   LoadOptional(repo.depMap).value, LoadOptional(repo.depMeta).value);
  }

  /** Documents that passed `check_file` and the completeness pass are well
      formed, and their packagers declare tools. */
  lemma LoadedDocsWellFormed(repo: Repo)
    requires !(repo.client.Absent? || repo.localClient.Absent? || repo.server.Absent?)
    requires CheckFiles([repo.client, repo.localClient, repo.server], CheckFile).None?
    requires Load(repo.client).Some? && Load(repo.server).Some?
    requires Completeness(Load(repo.client).value, Load(repo.server).value).Accept?
    ensures Load(repo.localClient).Some?
    ensures WellFormed(Load(repo.client).value) && WellFormed(Load(repo.localClient).value) && WellFormed(Load(repo.server).value)
    ensures PackagersHaveTools(Load(repo.client).value) && PackagersHaveTools(Load(repo.server).value)
  {
    var docs := [repo.client, repo.localClient, repo.server];
    assert docs[0] == repo.client && docs[1] == repo.localClient && docs[2] == repo.server;
    var client := Load(repo.client).value;
    var local := Load(repo.localClient).value;
    var server := Load(repo.server).value;
    CheckFileAcceptsWellFormed(client);
    CheckFileAcceptsWellFormed(local);
    CheckFileAcceptsWellFormed(server);
    var vs := [DocComplete(Client, client), DocComplete(Server, server)];
    assert Completeness(client, server) == FirstFailure(vs);
    assert vs[0].Accept? && vs[1].Accept?;
    DocCompleteWellFormed(Client, client);
    DocCompleteWellFormed(Server, server);
  }
}
