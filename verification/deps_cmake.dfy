/** The CMake linkage cross-check of `main` in `ci/deps/check-deps.py`: the
    resolved mandatory libraries of the first Linux packager that has any,
    the dependency names the client and `xymonnet` CMake files declare, and
    a search for each declared name among those libraries. A miss is only a
    note; the section matters to the exit status through the exceptions it
    can raise. The regular-expression scan of the CMake files is not
    interpreted: each file is given as the groups its three patterns
    capture, in the order `re.finditer` yields them. */
module DepsCMake {

  import opened Text
  import opened Py
  import opened DepsResolve
  import opened DepsWorkflow

  /** `linux_client` and `linux_server` as the search carries them. */
  type Lists = (seq<Value>, seq<Value>)

  // ---------------------------------------------------------------------
  // The search for the first Linux packager
  // ---------------------------------------------------------------------

  /** `pkg["libs"]["mandatory"]` */
  function MandatoryLibs(pkg: Value): (r: Result<Value>)
    ensures r.Ok? ==> pkg.Dict? && "libs" in Keys(pkg.entries)
  {
    var libs :- Index(pkg, "libs");
    Index(libs, "mandatory")
  }

  /** The server document has a mapping `build` that names `family`. */
  predicate ServerHasFamily(server: Entries, family: string) {
    && Lookup(server, "build").Some?
    && Lookup(server, "build").value.Dict?
    && family in Keys(Lookup(server, "build").value.entries)
  }

  /** `server["build"][family][os]["packagers"][pkgmgr]["libs"]["mandatory"]`,
      indexed without any guard. */
  function ServerLibs(server: Entries, family: string, os: string, pkgmgr: string): (r: Result<Value>)
    ensures r.Ok? ==> ServerHasFamily(server, family)
  {
    var build :- Index(Dict(server), "build");
    var familyEntry :- Index(build, family);
    var osEntry :- Index(familyEntry, os);
    var packagers :- Index(osEntry, "packagers");
    var pkg :- Index(packagers, pkgmgr);
    MandatoryLibs(pkg)
  }

  /** The first entry of `os_entry.get("packagers", {})`, if there is one. */
  function FirstPackager(osEntry: Value): (r: Result<Option<(string, Value)>>)
    ensures r.Ok? <==> osEntry.Dict? && Get(osEntry, "packagers", Dict([])).value.Dict?
    ensures r.Ok? && r.value.Some? ==>
      var ps := Get(osEntry, "packagers", Dict([])).value.entries;
      |ps| > 0 && r.value.value == ps[0]
    ensures r.Ok? && r.value.None? ==> Get(osEntry, "packagers", Dict([])).value.entries == []
  {
    var packagers :- Get(osEntry, "packagers", Dict([]));
    var ps :- Items(packagers);
    if |ps| == 0 then Ok(None) else Ok(Some(ps[0]))
  }

  /** One OS entry of the search: the loop over its packagers resolves the
      first packager's client list and then the server's list at the same
      path, and breaks. `None` when the OS has no packagers. */
  function OsLists(depMap: Entries, server: Entries, family: string, os: string, osEntry: Value)
    : (r: Result<Option<Lists>>)
    ensures FirstPackager(osEntry).Raised? ==> r.Raised?
    ensures FirstPackager(osEntry) == Ok(None) ==> r == Ok(None)
    ensures r.Ok? && r.value.Some? ==>
      && FirstPackager(osEntry).Ok? && FirstPackager(osEntry).value.Some?
      && var (name, pkg) := FirstPackager(osEntry).value.value;
      && MandatoryLibs(pkg).Ok?
      && ServerLibs(server, family, os, name).Ok?
  {
    var first :- FirstPackager(osEntry);
    match first
    case None => Ok(None)
    case Some((name, pkg)) =>
      var raw :- MandatoryLibs(pkg);
      var items :- Iter(raw);
      var c :- ResolvePackages(items, depMap, family, os, name);
      var rawServer :- ServerLibs(server, family, os, name);
      var serverItems :- Iter(rawServer);
      var v :- ResolvePackages(serverItems, depMap, family, os, name);
      Ok(Some((c, v)))
  }

  /** One step of the search lets it go on: the OS had no packager, or its
      client list came out empty (`if linux_client: break` does not fire). */
  predicate GoesOn(e: Result<Option<Lists>>) {
    e.Ok? && (e.value.None? || |e.value.value.0| == 0)
  }

  /** The nested loops' control flow over the steps they meet, in order:
      stop at the first exception or at the first non-empty client list; a
      step keeps the lists it found even when they are empty, so the server
      list of an earlier OS can outlive its client list. */
  function Search(steps: seq<Result<Option<Lists>>>, state: Lists): (r: Result<Lists>)
    requires |state.0| == 0
    ensures r.Raised? <==>
      exists i :: 0 <= i < |steps| && steps[i].Raised? && forall k :: 0 <= k < i ==> GoesOn(steps[k])
    ensures r.Ok? && |r.value.0| > 0 ==>
      exists i :: 0 <= i < |steps| && steps[i] == Ok(Some(r.value)) && forall k :: 0 <= k < i ==> GoesOn(steps[k])
    ensures (forall i :: 0 <= i < |steps| ==> steps[i] == Ok(None)) ==> r == Ok(state)
  {
    if |steps| == 0 then Ok(state)
    else
      assert forall i :: 1 <= i < |steps| ==> steps[i] == steps[1..][i - 1];
      var e :- steps[0];
      var next := if e.Some? then e.value else state;
      if |next.0| > 0 then Ok(next)
      else
        var r := Search(steps[1..], next);
        assert r.Raised? ==>
          exists i :: 0 <= i < |steps| && steps[i].Raised? && forall k :: 0 <= k < i ==> GoesOn(steps[k])
        by {
          if r.Raised? {
            var i :| 0 <= i < |steps[1..]| && steps[1..][i].Raised? &&
                     forall k :: 0 <= k < i ==> GoesOn(steps[1..][k]);
            assert steps[i + 1].Raised? && forall k :: 0 <= k < i + 1 ==> GoesOn(steps[k]);
          }
        }
        assert r.Ok? && |r.value.0| > 0 ==>
          exists i :: 0 <= i < |steps| && steps[i] == Ok(Some(r.value)) && forall k :: 0 <= k < i ==> GoesOn(steps[k])
        by {
          if r.Ok? && |r.value.0| > 0 {
            var i :| 0 <= i < |steps[1..]| && steps[1..][i] == Ok(Some(r.value)) &&
                     forall k :: 0 <= k < i ==> GoesOn(steps[1..][k]);
            assert steps[i + 1] == Ok(Some(r.value)) && forall k :: 0 <= k < i + 1 ==> GoesOn(steps[k]);
          }
        }
        r
  }

  /** The steps the nested loops meet over `client["build"].items()`: a
      family outside the Linux families contributes none, a family whose
      entry is not a mapping raises at `family_entry.items()`, any other
      contributes one step per OS. */
  function LinuxSteps(linuxFamilies: set<string>, depMap: Entries, server: Entries, fams: Entries)
    : (r: seq<Result<Option<Lists>>>)
    ensures (forall i :: 0 <= i < |fams| ==> fams[i].0 !in linuxFamilies) ==> r == []
  {
    if |fams| == 0 then []
    else
      var (family, familyEntry) := fams[0];
      var here :=
        if family !in linuxFamilies then []
        else match Items(familyEntry)
          case Raised(e) => [Raised(e)]
          case Ok(oses) =>
            seq(|oses|, j requires 0 <= j < |oses| => OsLists(depMap, server, family, oses[j].0, oses[j].1));
      here + LinuxSteps(linuxFamilies, depMap, server, fams[1..])
  }

  /** `linux_client` and `linux_server` after the search. */
  function LinuxLists(linuxFamilies: set<string>, depMap: Entries, client: Entries, server: Entries)
    : (r: Result<Lists>)
    ensures r.Ok? ==> Lookup(client, "build").Some? && Lookup(client, "build").value.Dict?
  {
    var build :- Index(Dict(client), "build");
    var fams :- Items(build);
    Search(LinuxSteps(linuxFamilies, depMap, server, fams), ([], []))
  }

  /** Without a Linux family in the client build there is nothing to compare
      against: both lists stay empty. */
  lemma NoLinuxFamilyNoLists(linuxFamilies: set<string>, depMap: Entries, client: Entries, server: Entries)
    requires Lookup(client, "build").Some? && Lookup(client, "build").value.Dict?
    requires forall e :: e in Lookup(client, "build").value.entries ==> e.0 !in linuxFamilies
    ensures LinuxLists(linuxFamilies, depMap, client, server) == Ok(([], []))
  {
    var fams := Lookup(client, "build").value.entries;
    assert forall i :: 0 <= i < |fams| ==> fams[i] in fams;
  }

  /** The server side is indexed without a guard: when the first Linux OS
      of the client has a packager with a readable client list, a server
      build without that family makes the section raise. */
  lemma {:induction false} UnguardedServerRaises(linuxFamilies: set<string>, depMap: Entries,
                                                 client: Entries, server: Entries,
                                                 family: string, os: string, name: string, items: seq<Value>)
    requires family in linuxFamilies
    requires Lookup(client, "build") ==
      Some(Dict([(family, Dict([(os, Dict([("packagers", Dict([(name, Dict([("libs", Dict([("mandatory", List(items))]))]))]))]))]))]))
    requires ResolvePackages(items, depMap, family, os, name).Ok?
    requires !ServerHasFamily(server, family)
    ensures LinuxLists(linuxFamilies, depMap, client, server).Raised?
  {
    var osEntry := Dict([("packagers", Dict([(name, Dict([("libs", Dict([("mandatory", List(items))]))]))]))]);
    var fams := [(family, Dict([(os, osEntry)]))];
    assert OsLists(depMap, server, family, os, osEntry).Raised?;
    var steps := LinuxSteps(linuxFamilies, depMap, server, fams);
    assert fams[1..] == [];
    assert steps == [OsLists(depMap, server, family, os, osEntry)];
    assert steps[0].Raised?;
  }

  // ---------------------------------------------------------------------
  // Dependency names declared in the CMake files
  // ---------------------------------------------------------------------

  /** The characters `re.sub(r"[^A-Za-z0-9_]+", "", name)` keeps. */
  predicate IsNameChar(c: char) {
    IsUpper(c) || IsLower(c) || IsDigit(c) || c == '_'
  }

  /** `re.sub(r"[^A-Za-z0-9_]+", "", name)`: the ASCII letters, digits and
      underscores of `name`, in order. */
  function CleanName(name: string): (r: string)
    ensures forall c :: c in r <==> c in name && IsNameChar(c)
    ensures |r| <= |name|
  {
    if |name| == 0 then ""
    else
      assert forall c :: c in name <==> c == name[0] || c in name[1..] by {
        assert name == [name[0]] + name[1..];
      }
      (if IsNameChar(name[0]) then [name[0]] else []) + CleanName(name[1..])
  }

  /** A name that is already clean is left as it is. */
  lemma {:induction false} CleanNameKeepsClean(name: string)
    requires forall i :: 0 <= i < |name| ==> IsNameChar(name[i])
    ensures CleanName(name) == name
  {
    if |name| > 0 {
      CleanNameKeepsClean(name[1..]);
      assert name == [name[0]] + name[1..];
    }
  }

  /** The dependency one captured group names: its first word, cleaned. */
  function GroupName(group: string): (n: string)
    requires HasWord(group)
    ensures forall i :: 0 <= i < |n| ==> IsNameChar(n[i])
  {
    CleanName(FirstWord(group))
  }

  /** One iteration of the loop in `extract_cmake_deps`: the group's name,
      or `IndexError` from `split()[0]` when the group has no word (only
      `find_package(` can capture such a group). */
  function NameStep(group: string): (r: Result<string>)
    ensures r.Ok? <==> HasWord(group)
    ensures r.Ok? ==> r.value == GroupName(group)
    ensures r.Raised? ==> r.exc == IndexError
  {
    if HasWord(group) then Ok(GroupName(group)) else Raised(IndexError)
  }

  /** The loop of `extract_cmake_deps` over its steps: the first step that
      raises ends it, and every non-empty name is appended in order. */
  function Collect(steps: seq<Result<string>>): (r: Result<seq<string>>)
    ensures r.Ok? <==> forall i :: 0 <= i < |steps| ==> steps[i].Ok?
    ensures r.Raised? ==> exists i :: 0 <= i < |steps| && steps[i].Raised? && steps[i].exc == r.exc
    ensures r.Ok? ==> |r.value| <= |steps| && forall n :: n in r.value ==> n != ""
  {
    if |steps| == 0 then Ok([])
    else if steps[0].Raised? then Raised(steps[0].exc)
    else
      assert forall i :: 1 <= i < |steps| ==> steps[i] == steps[1..][i - 1];
      var rest :- Collect(steps[1..]);
      Ok(if steps[0].value == "" then rest else [steps[0].value] + rest)
  }

  /** The collected names are exactly the non-empty names of the steps. */
  lemma {:induction false} CollectMembers(steps: seq<Result<string>>, n: string)
    requires Collect(steps).Ok?
    ensures n in Collect(steps).value <==> n != "" && exists i :: 0 <= i < |steps| && steps[i] == Ok(n)
  {
    if |steps| > 0 {
      var tail := steps[1..];
      assert forall i :: 1 <= i < |steps| ==> steps[i] == tail[i - 1];
      CollectMembers(tail, n);
      if n != "" && n != steps[0].value && exists i :: 0 <= i < |steps| && steps[i] == Ok(n) {
        var i :| 0 <= i < |steps| && steps[i] == Ok(n);
        assert i > 0 && tail[i - 1] == Ok(n);
      }
      if n != "" && exists i :: 0 <= i < |tail| && tail[i] == Ok(n) {
        var i :| 0 <= i < |tail| && tail[i] == Ok(n);
        assert steps[i + 1] == Ok(n);
      }
    }
  }

  /** `extract_cmake_deps`, given the captured groups: each group's cleaned
      first word is a dependency unless nothing is left of it. */
  function CMakeNames(groups: seq<string>): (r: Result<seq<string>>)
    ensures r.Ok? <==> forall i :: 0 <= i < |groups| ==> HasWord(groups[i])
    ensures r.Raised? ==> r.exc == IndexError
    ensures r.Ok? ==> |r.value| <= |groups| && forall n :: n in r.value ==> n != ""
  {
    var steps := seq(|groups|, i requires 0 <= i < |groups| => NameStep(groups[i]));
    assert forall i :: 0 <= i < |groups| ==> steps[i] == NameStep(groups[i]);
    Collect(steps)
  }

  /** The declared dependencies are exactly the non-empty names of the
      captured groups. */
  lemma CMakeNamesMembers(groups: seq<string>, n: string)
    requires CMakeNames(groups).Ok?
    ensures n in CMakeNames(groups).value <==>
      n != "" && exists i :: 0 <= i < |groups| && HasWord(groups[i]) && n == GroupName(groups[i])
  {
    var steps := seq(|groups|, i requires 0 <= i < |groups| => NameStep(groups[i]));
    assert forall i :: 0 <= i < |groups| ==> steps[i] == NameStep(groups[i]);
    CollectMembers(steps, n);
    if n != "" && exists i :: 0 <= i < |groups| && HasWord(groups[i]) && n == GroupName(groups[i]) {
      var i :| 0 <= i < |groups| && HasWord(groups[i]) && n == GroupName(groups[i]);
      assert steps[i] == Ok(n);
    }
  }

  // ---------------------------------------------------------------------
  // `ensure_dep`
  // ---------------------------------------------------------------------

  /** The package lists of one OS entry of a map entry: every value is taken
      with `list(pkg_list or [])`; a non-mapping OS entry is skipped. */
  function OsMapped(osEntry: Value): (r: Result<seq<Value>>)
    ensures r.Ok? <==> (osEntry.Dict? ==>
      forall i :: 0 <= i < |osEntry.entries| ==> ListOrEmpty(osEntry.entries[i].1).Ok?)
    ensures r.Ok? ==> forall x :: x in r.value <==>
      osEntry.Dict? && exists i :: 0 <= i < |osEntry.entries| && x in ListOrEmpty(osEntry.entries[i].1).value
  {
    if !osEntry.Dict? then Ok([])
    else
      var es := osEntry.entries;
      var rs := seq(|es|, i requires 0 <= i < |es| => ListOrEmpty(es[i].1));
      assert forall i :: 0 <= i < |es| ==> rs[i] == ListOrEmpty(es[i].1);
      Concat(rs)
  }

  /** The package lists under one family of a map entry; a non-mapping
      family entry is skipped. */
  function FamilyMapped(familyEntry: Value): (r: Result<seq<Value>>)
    ensures r.Ok? <==> (familyEntry.Dict? ==>
      forall i :: 0 <= i < |familyEntry.entries| ==> OsMapped(familyEntry.entries[i].1).Ok?)
    ensures r.Ok? ==> forall x :: x in r.value <==>
      familyEntry.Dict? && exists i :: 0 <= i < |familyEntry.entries| && x in OsMapped(familyEntry.entries[i].1).value
  {
    if !familyEntry.Dict? then Ok([])
    else
      var es := familyEntry.entries;
      var rs := seq(|es|, i requires 0 <= i < |es| => OsMapped(es[i].1));
      assert forall i :: 0 <= i < |es| ==> rs[i] == OsMapped(es[i].1);
      Concat(rs)
  }

  /** `mapped`: every package list of `map[dep_key]` across all families,
      OSes and package managers; `.values()` needs a mapping. */
  function Mapped(entry: Value): (r: Result<seq<Value>>)
    ensures r.Ok? <==> (entry.Dict? &&
      forall i :: 0 <= i < |entry.entries| ==> FamilyMapped(entry.entries[i].1).Ok?)
    ensures r.Ok? ==> forall x :: x in r.value <==>
      exists i :: 0 <= i < |entry.entries| && x in FamilyMapped(entry.entries[i].1).value
  {
    var fams :- Items(entry);
    var rs := seq(|fams|, i requires 0 <= i < |fams| => FamilyMapped(fams[i].1));
    assert forall i :: 0 <= i < |fams| ==> rs[i] == FamilyMapped(fams[i].1);
    Concat(rs)
  }

  /** `{normalize_token(p) for p in pkgs}` */
  function NormalizedNames(pkgs: seq<Value>): (r: Result<set<string>>)
    ensures r.Ok? <==> AllStrings(pkgs)
    ensures r.Ok? ==> forall t :: t in r.value <==> exists i :: 0 <= i < |pkgs| && t == NormalizeToken(pkgs[i].s)
  {
    if AllStrings(pkgs) then
      Ok(set i | 0 <= i < |pkgs| :: NormalizeToken(pkgs[i].s))
    else Raised(AttributeError)
  }

  /** `normalize_token(pkg) in {normalize_token(p) for p in pkgs}` for one
      mapped package: the left operand is evaluated first. */
  function MappedProbe(pkg: Value, pkgs: seq<Value>): (r: Result<bool>)
    ensures r.Raised? <==> !pkg.Str? || !AllStrings(pkgs)
  {
    if !pkg.Str? then Raised(AttributeError)
    else
      var names :- NormalizedNames(pkgs);
      Ok(NormalizeToken(pkg.s) in names)
  }

  /** `any(normalize_token(pkg) in {normalize_token(p) for p in pkgs} for pkg in mapped)`,
      evaluated left to right and stopping at the first hit. */
  function AnyMappedFound(mapped: seq<Value>, pkgs: seq<Value>): (r: Result<bool>)
    ensures |mapped| > 0 && !AllStrings(pkgs) ==> r.Raised?
    ensures AllStrings(pkgs) ==> (r == Ok(true) <==>
      exists i :: 0 <= i < |mapped| && mapped[i].Str? && NormalizeToken(mapped[i].s) in NormalizedNames(pkgs).value &&
        forall k :: 0 <= k < i ==> mapped[k].Str?)
    ensures AllStrings(pkgs) && AllStrings(mapped) ==> r.Ok?
  {
    var steps := seq(|mapped|, i requires 0 <= i < |mapped| => MappedProbe(mapped[i], pkgs));
    assert forall i :: 0 <= i < |mapped| ==> steps[i] == MappedProbe(mapped[i], pkgs);
    assert |mapped| > 0 && !AllStrings(pkgs) ==> steps[0].Raised?;
    AnyOf(steps)
  }

  /** `any(...)` over outcomes produced one element at a time: the first
      element that raises or yields true decides, and the rest are never
      looked at. */
  function AnyOf(steps: seq<Result<bool>>): (r: Result<bool>)
    ensures r.Raised? <==>
      exists i :: 0 <= i < |steps| && steps[i].Raised? && forall k :: 0 <= k < i ==> steps[k] == Ok(false)
    ensures r == Ok(true) <==>
      exists i :: 0 <= i < |steps| && steps[i] == Ok(true) && forall k :: 0 <= k < i ==> steps[k].Ok?
  {
    if |steps| == 0 then Ok(false)
    else if steps[0].Raised? || steps[0].value then
      steps[0]
    else
      var r := AnyOf(steps[1..]);
      assert forall i :: 1 <= i < |steps| ==> steps[i] == steps[1..][i - 1];
      assert r.Raised? ==>
        exists i :: 0 <= i < |steps| && steps[i].Raised? && forall k :: 0 <= k < i ==> steps[k] == Ok(false)
      by {
        if r.Raised? {
          var i :| 0 <= i < |steps[1..]| && steps[1..][i].Raised? && forall k :: 0 <= k < i ==> steps[1..][k] == Ok(false);
          assert steps[i + 1].Raised?;
        }
      }
      assert r == Ok(true) ==>
        exists i :: 0 <= i < |steps| && steps[i] == Ok(true) && forall k :: 0 <= k < i ==> steps[k].Ok?
      by {
        if r == Ok(true) {
          var i :| 0 <= i < |steps[1..]| && steps[1..][i] == Ok(true) && forall k :: 0 <= k < i ==> steps[1..][k].Ok?;
          assert steps[i + 1] == Ok(true);
        }
      }
      r
  }

  /** `token in normalize_token(pkg)` for one package entry; a non-string
      has no `lower` and raises. */
  function Probe(token: string, pkg: Value): (r: Result<bool>)
    ensures r.Raised? <==> !pkg.Str?
  {
    if pkg.Str? then Ok(Contains(NormalizeToken(pkg.s), token)) else Raised(AttributeError)
  }

  /** `any(token in normalize_token(pkg) for pkg in pkgs)`, evaluated left
      to right and stopping at the first hit. */
  function AnyContains(token: string, pkgs: seq<Value>): (r: Result<bool>)
    ensures r.Raised? <==>
      exists i :: 0 <= i < |pkgs| && !pkgs[i].Str? &&
        forall k :: 0 <= k < i ==> pkgs[k].Str? && !Contains(NormalizeToken(pkgs[k].s), token)
    ensures r == Ok(true) <==>
      exists i :: 0 <= i < |pkgs| && pkgs[i].Str? && Contains(NormalizeToken(pkgs[i].s), token) &&
        forall k :: 0 <= k < i ==> pkgs[k].Str?
  {
    var steps := seq(|pkgs|, i requires 0 <= i < |pkgs| => Probe(token, pkgs[i]));
    assert forall i :: 0 <= i < |pkgs| ==> steps[i] == Probe(token, pkgs[i]);
    AnyOf(steps)
  }

  /** One iteration of `ensure_dep`: whether `dep` is accounted for in
      `pkgs` (a miss prints a note). An alias target with a non-empty map
      entry is looked up by normalised package name; otherwise the
      normalised name must occur inside some normalised package name, and a
      name that normalises to nothing is skipped. */
  function DepFound(dep: string, pkgs: seq<Value>, depMap: Entries): (r: Result<bool>)
    ensures Member(ResolveAlias(dep, depMap), MapBlock(depMap)) == Ok(false) ==>
      (NormalizeToken(dep) == "" ==> r == Ok(true)) &&
      (NormalizeToken(dep) != "" ==> r == AnyContains(NormalizeToken(dep), pkgs))
    ensures Member(ResolveAlias(dep, depMap), MapBlock(depMap)).Raised? ==> r.Raised?
  {
    var key := ResolveAlias(dep, depMap);
    var mapBlock := MapBlock(depMap);
    var inMap :- Member(key, mapBlock);
    if inMap then
      var entry :- Subscript(mapBlock, key);
      var mapped :- Mapped(entry);
      if |mapped| == 0 then Ok(true) else AnyMappedFound(mapped, pkgs)
    else
      var token := NormalizeToken(dep);
      if token == "" then Ok(true) else AnyContains(token, pkgs)
  }

  /** `ensure_dep(deps, pkgs, label)` over `sorted(deps)`: the dependencies
      it reports as not found, in order. */
  function Misses(deps: seq<string>, pkgs: seq<Value>, depMap: Entries): (r: Result<seq<string>>)
    ensures r.Ok? <==> forall i :: 0 <= i < |deps| ==> DepFound(deps[i], pkgs, depMap).Ok?
    ensures r.Ok? ==> forall d :: d in r.value <==> d in deps && DepFound(d, pkgs, depMap) == Ok(false)
  {
    if |deps| == 0 then Ok([])
    else
      assert forall i :: 1 <= i < |deps| ==> deps[i] == deps[1..][i - 1];
      assert forall d :: d in deps <==> d == deps[0] || d in deps[1..] by {
        assert deps == [deps[0]] + deps[1..];
      }
      var found :- DepFound(deps[0], pkgs, depMap);
      var rest :- Misses(deps[1..], pkgs, depMap);
      Ok(if found then rest else [deps[0]] + rest)
  }

  /** The CMake files as the section sees them: the groups captured in
      `client/CMakeLists.txt` and `xymonnet/CMakeLists.txt`, `None` for a
      file `read_text` cannot read. */
  datatype CMakeFiles = CMakeFiles(client: Option<seq<string>>, xymonnet: Option<seq<string>>)

  /** `read_text()`: an unreadable file raises `OSError`. */
  function ReadGroups(file: Option<seq<string>>): (r: Result<seq<string>>)
    ensures r.Ok? <==> file.Some?
  {
    match file
    case Some(groups) => Ok(groups)
    case None => Raised(OSError)
  }

  /** The whole CMake section: it never clears `ok`, so its only outcomes are
      going on or raising. */
  function CMakeSection(linuxFamilies: set<string>, files: CMakeFiles, client: Entries, server: Entries,
                        depMap: Entries): (r: Result<bool>)
    ensures r.Ok? ==> r.value
    ensures r.Ok? ==> LinuxLists(linuxFamilies, depMap, client, server).Ok? && files.client.Some? && files.xymonnet.Some?
    ensures LinuxLists(linuxFamilies, depMap, client, server).Raised? ==> r.Raised?
  {
    var lists :- LinuxLists(linuxFamilies, depMap, client, server);
    var clientGroups :- ReadGroups(files.client);
    var serverGroups :- ReadGroups(files.xymonnet);
    var clientDeps :- CMakeNames(clientGroups);
    var serverDeps :- CMakeNames(serverGroups);
    var clientMisses :- Misses(SortedSet(clientDeps), lists.0, depMap);
    var serverMisses :- Misses(SortedSet(serverDeps), lists.1, depMap);
    Ok(true)
  }

  /** A declared name whose token occurs in a resolved package name is
      found, wherever that package stands, provided the packages before it
      are strings. */
  lemma UnmappedFoundByContainment(dep: string, pkgs: seq<Value>, depMap: Entries, i: nat)
    requires Member(ResolveAlias(dep, depMap), MapBlock(depMap)) == Ok(false)
    requires i < |pkgs| && pkgs[i].Str? && AllStrings(pkgs[..i])
    requires Contains(NormalizeToken(pkgs[i].s), NormalizeToken(dep))
    ensures DepFound(dep, pkgs, depMap) == Ok(true)
  {
    assert forall k :: 0 <= k < i ==> pkgs[k] == pkgs[..i][k];
  }
}
