/** `ci/deps/tools/generate-packages.py`: flattens the build documents and
    `deps-map.yaml` into the three associative arrays of
    `generated-packages.sh`, the table the POSIX shell resolver reads. Each
    flattening walks the nested mappings in document order and produces
    rows `key -> value`; the Python dict keeps the last value written under
    a key, and the file lists every table in sorted key order. */
module GeneratePackages {

  import opened Text
  import opened Py

  // ---- Keys and rows ----

  /** `f"{a}:{b}:{c}:{d}"` */
  function Key(a: string, b: string, c: string, d: string): string {
    a + [':'] + b + [':'] + c + [':'] + d
  }

  /** The key is the colon-join of its four parts. */
  lemma KeyIsJoin(a: string, b: string, c: string, d: string)
    ensures Key(a, b, c, d) == Join([a, b, c, d], ':')
  {
    assert [a, b, c, d][1..] == [b, c, d];
    assert [b, c, d][1..] == [c, d];
    assert [c, d][1..] == [d];
    assert Join([c, d], ':') == c + [':'] + d;
    assert Join([b, c, d], ':') == b + [':'] + (c + [':'] + d);
    assert Join([a, b, c, d], ':') == a + [':'] + (b + [':'] + (c + [':'] + d));
  }

  lemma KeyPrefix(a: string, b: string, c: string, d: string)
    ensures IsPrefix(a + [':'], Key(a, b, c, d))
  {
    assert Key(a, b, c, d) == (a + [':']) + (b + [':'] + c + [':'] + d);
  }

  /** Splitting a key at `:` gives its parts back when none holds a colon. */
  lemma KeySplits(a: string, b: string, c: string, d: string)
    requires ':' !in a && ':' !in b && ':' !in c && ':' !in d
    ensures Split(Key(a, b, c, d), ':') == [a, b, c, d]
  {
    KeyIsJoin(a, b, c, d);
    SplitJoin([a, b, c, d], ':');
  }

  /** Colon-free names never share a key: distinct packagers get distinct rows. */
  lemma KeyInjective(a: string, b: string, c: string, d: string, a': string, b': string, c': string, d': string)
    requires ':' !in a && ':' !in b && ':' !in c && ':' !in d
    requires ':' !in a' && ':' !in b' && ':' !in c' && ':' !in d'
    requires Key(a, b, c, d) == Key(a', b', c', d')
    ensures a == a' && b == b' && c == c' && d == d'
  {
    KeySplits(a, b, c, d);
    KeySplits(a', b', c', d');
  }

  /** `for name, value in entries.items()`, each step contributing rows;
      the first exception ends the walk. */
  function Collect<R(!new)>(es: Entries, f: (string, Value) -> Result<seq<R>>): (r: Result<seq<R>>)
    ensures r.Ok? <==> forall i :: 0 <= i < |es| ==> f(es[i].0, es[i].1).Ok?
    ensures r.Ok? ==> forall x :: x in r.value <==> exists i :: 0 <= i < |es| && x in f(es[i].0, es[i].1).value
  {
    if |es| == 0 then Ok([])
    else
      var h := f(es[0].0, es[0].1);
      var t := Collect(es[1..], f);
      assert forall i :: 1 <= i < |es| ==> es[i] == es[1..][i - 1];
      if h.Raised? then Raised(h.exc)
      else if t.Raised? then Raised(t.exc)
      else
        assert forall x :: x in h.value + t.value <==> exists i :: 0 <= i < |es| && x in f(es[i].0, es[i].1).value by {
          forall x ensures x in h.value + t.value <==> exists i :: 0 <= i < |es| && x in f(es[i].0, es[i].1).value {
            if x in t.value {
              var i :| 0 <= i < |es[1..]| && x in f(es[1..][i].0, es[1..][i].1).value;
              assert x in f(es[i + 1].0, es[i + 1].1).value;
            }
            if exists i :: 0 <= i < |es| && x in f(es[i].0, es[i].1).value {
              var i :| 0 <= i < |es| && x in f(es[i].0, es[i].1).value;
              if i > 0 {
                assert x in f(es[1..][i - 1].0, es[1..][i - 1].1).value;
              }
            }
          }
        }
        Ok(h.value + t.value)
  }

  /** Some row is written under `k`. */
  predicate HasKey<V>(rows: seq<(string, V)>, k: string) {
    exists i :: 0 <= i < |rows| && rows[i].0 == k
  }

  lemma HasKeyLast<V>(rows: seq<(string, V)>, k: string)
    requires |rows| > 0
    ensures HasKey(rows, k) <==> rows[|rows| - 1].0 == k || HasKey(rows[..|rows| - 1], k)
  {
    var init := rows[..|rows| - 1];
    if HasKey(rows, k) && rows[|rows| - 1].0 != k {
      var i :| 0 <= i < |rows| && rows[i].0 == k;
      assert init[i].0 == k;
    }
    if HasKey(init, k) {
      var i :| 0 <= i < |init| && init[i].0 == k;
      assert rows[i].0 == k;
    }
  }

  /** A Python dict built by assigning the rows in order: its keys are the
      rows' keys and each holds the value of the last row written to it. */
  function ToMap<V>(rows: seq<(string, V)>): (m: map<string, V>)
    ensures forall k :: k in m <==> HasKey(rows, k)
    ensures forall i :: 0 <= i < |rows| && (forall j :: i < j < |rows| ==> rows[j].0 != rows[i].0) ==>
      rows[i].0 in m && m[rows[i].0] == rows[i].1
  {
    if |rows| == 0 then map[]
    else
      var last := rows[|rows| - 1];
      var init := rows[..|rows| - 1];
      var m := ToMap(init);
      assert forall k :: HasKey(rows, k) <==> k == last.0 || HasKey(init, k) by {
        forall k ensures HasKey(rows, k) <==> k == last.0 || HasKey(init, k) {
          HasKeyLast(rows, k);
        }
      }
      assert forall i :: 0 <= i < |init| ==> init[i] == rows[i];
      m[last.0 := last.1]
  }

  /** `dict.update` on an empty dict twice is building it from both row
      lists in turn. */
  lemma {:induction false} ToMapAppend<V>(a: seq<(string, V)>, b: seq<(string, V)>)
    ensures ToMap(a + b) == ToMap(a) + ToMap(b)
    decreases |b|
  {
    if |b| == 0 {
      assert a + b == a;
    } else {
      var b' := b[..|b| - 1];
      var last := b[|b| - 1];
      assert (a + b)[..|a + b| - 1] == a + b';
      assert (a + b)[|a + b| - 1] == last;
      assert ToMap(a + b) == ToMap(a + b')[last.0 := last.1];
      assert ToMap(b) == ToMap(b')[last.0 := last.1];
      ToMapAppend(a, b');
      MapUpdateUnion(ToMap(a), ToMap(b'), last.0, last.1);
    }
  }

  /** Updating the right operand of a union is updating the union. */
  lemma MapUpdateUnion<V>(m: map<string, V>, n: map<string, V>, k: string, v: V)
    ensures (m + n)[k := v] == m + n[k := v]
  {
  }

  // ---- flatten_packages ----

  type Row = (string, seq<Value>)

  /** `list(pkg_entry.get("libs", {}).get("mandatory", []) or [])` */
  function Mandatory(pkg: Value): (r: Result<seq<Value>>)
    ensures !pkg.Dict? ==> r == Raised(AttributeError)
    ensures pkg.Dict? && Lookup(pkg.entries, "libs").None? ==> r == Ok([])
    ensures pkg.Dict? && Lookup(pkg.entries, "libs").Some? ==>
      var libs := Lookup(pkg.entries, "libs").value;
      (!libs.Dict? ==> r == Raised(AttributeError)) &&
      (libs.Dict? && Lookup(libs.entries, "mandatory").None? ==> r == Ok([])) &&
      (libs.Dict? && Lookup(libs.entries, "mandatory") == Some(Null) ==> r == Ok([])) &&
      (forall xs :: libs.Dict? && Lookup(libs.entries, "mandatory") == Some(List(xs)) ==> r == Ok(xs))
  {
    match Get(pkg, "libs", Dict([]))
    case Raised(e) => Raised(e)
    case Ok(libs) =>
      match Get(libs, "mandatory", List([]))
      case Raised(e) => Raised(e)
      case Ok(mandatory) => ListOrEmpty(mandatory)
  }

  /** The one row of packager `pkgmgr` under `family` and `os`. */
  function PackagerRow(variant: string, family: string, os: string): (string, Value) -> Result<seq<Row>> {
    (pkgmgr: string, pkg: Value) =>
      match Mandatory(pkg)
      case Raised(e) => Raised(e)
      case Ok(libs) => Ok([(Key(variant, family, os, pkgmgr), libs)])
  }

  /** `os_entry.get("packagers", {})`, whose `items()` the walk then takes. */
  function OsPackagers(osEntry: Value): Result<Entries> {
    match Get(osEntry, "packagers", Dict([]))
    case Raised(e) => Raised(e)
    case Ok(packagers) => Items(packagers)
  }

  function OsRows(variant: string, family: string): (string, Value) -> Result<seq<Row>> {
    (os: string, osEntry: Value) =>
      match OsPackagers(osEntry)
      case Raised(e) => Raised(e)
      case Ok(packagers) => Collect(packagers, PackagerRow(variant, family, os))
  }

  /** A family entry that is not a mapping is skipped. */
  function FamilyRows(variant: string): (string, Value) -> Result<seq<Row>> {
    (family: string, familyEntry: Value) =>
      if !familyEntry.Dict? then Ok([]) else Collect(familyEntry.entries, OsRows(variant, family))
  }

  /** `data.get("build", {}).items()` */
  function BuildFamilies(data: Value): Result<Entries> {
    match Get(data, "build", Dict([]))
    case Raised(e) => Raised(e)
    case Ok(build) => Items(build)
  }

  /** The rows `flatten_packages(variant, path)` assigns, in order. */
  function PackageRows(variant: string, data: Value): Result<seq<Row>> {
    match BuildFamilies(data)
    case Raised(e) => Raised(e)
    case Ok(families) => Collect(families, FamilyRows(variant))
  }

  // The rows a walk should produce, stated level by level: one row per
  // packager reached through mapping-valued families.

  predicate PackagerRowIn(variant: string, family: string, os: string, packagers: Entries, row: Row) {
    exists p :: 0 <= p < |packagers| &&
      row.0 == Key(variant, family, os, packagers[p].0) && Mandatory(packagers[p].1) == Ok(row.1)
  }

  predicate OsRowIn(variant: string, family: string, oses: Entries, row: Row) {
    exists o :: 0 <= o < |oses| && OsPackagers(oses[o].1).Ok? &&
      PackagerRowIn(variant, family, oses[o].0, OsPackagers(oses[o].1).value, row)
  }

  predicate FamilyRowIn(variant: string, families: Entries, row: Row) {
    exists f :: 0 <= f < |families| && families[f].1.Dict? &&
      OsRowIn(variant, families[f].0, families[f].1.entries, row)
  }

  lemma PackagerRowsExact(variant: string, family: string, os: string, packagers: Entries, row: Row)
    requires Collect(packagers, PackagerRow(variant, family, os)).Ok?
    ensures row in Collect(packagers, PackagerRow(variant, family, os)).value <==>
      PackagerRowIn(variant, family, os, packagers, row)
  {
    var f := PackagerRow(variant, family, os);
    if row in Collect(packagers, f).value {
      var p :| 0 <= p < |packagers| && row in f(packagers[p].0, packagers[p].1).value;
      assert row.0 == Key(variant, family, os, packagers[p].0) && Mandatory(packagers[p].1) == Ok(row.1);
    }
    if PackagerRowIn(variant, family, os, packagers, row) {
      var p :| 0 <= p < |packagers| &&
        row.0 == Key(variant, family, os, packagers[p].0) && Mandatory(packagers[p].1) == Ok(row.1);
      assert row in f(packagers[p].0, packagers[p].1).value;
    }
  }

  lemma OsRowsExact(variant: string, family: string, oses: Entries, row: Row)
    requires Collect(oses, OsRows(variant, family)).Ok?
    ensures row in Collect(oses, OsRows(variant, family)).value <==> OsRowIn(variant, family, oses, row)
  {
    var f := OsRows(variant, family);
    if row in Collect(oses, f).value {
      var o :| 0 <= o < |oses| && row in f(oses[o].0, oses[o].1).value;
      assert f(oses[o].0, oses[o].1).Ok?;
      PackagerRowsExact(variant, family, oses[o].0, OsPackagers(oses[o].1).value, row);
    }
    if OsRowIn(variant, family, oses, row) {
      var o :| 0 <= o < |oses| && OsPackagers(oses[o].1).Ok? &&
        PackagerRowIn(variant, family, oses[o].0, OsPackagers(oses[o].1).value, row);
      assert f(oses[o].0, oses[o].1).Ok?;
      PackagerRowsExact(variant, family, oses[o].0, OsPackagers(oses[o].1).value, row);
      assert row in f(oses[o].0, oses[o].1).value;
    }
  }

  /** `flatten_packages` writes exactly one row per packager of a
      mapping-valued family, keyed `variant:family:os:pkgmgr` and holding its
      `libs.mandatory` list (empty when absent or null). */
  lemma PackageRowsExact(variant: string, data: Value, row: Row)
    requires PackageRows(variant, data).Ok?
    ensures BuildFamilies(data).Ok?
    ensures row in PackageRows(variant, data).value <==> FamilyRowIn(variant, BuildFamilies(data).value, row)
  {
    var families := BuildFamilies(data).value;
    var f := FamilyRows(variant);
    if row in Collect(families, f).value {
      var i :| 0 <= i < |families| && row in f(families[i].0, families[i].1).value;
      assert families[i].1.Dict?;
      OsRowsExact(variant, families[i].0, families[i].1.entries, row);
    }
    if FamilyRowIn(variant, families, row) {
      var i :| 0 <= i < |families| && families[i].1.Dict? &&
        OsRowIn(variant, families[i].0, families[i].1.entries, row);
      assert f(families[i].0, families[i].1).Ok?;
      OsRowsExact(variant, families[i].0, families[i].1.entries, row);
      assert row in f(families[i].0, families[i].1).value;
    }
  }

  /** Every row key starts with the variant and a colon. */
  lemma RowKeyPrefix(variant: string, data: Value, row: Row)
    requires PackageRows(variant, data).Ok? && row in PackageRows(variant, data).value
    ensures IsPrefix(variant + [':'], row.0)
  {
    PackageRowsExact(variant, data, row);
    var families := BuildFamilies(data).value;
    var fi :| 0 <= fi < |families| && families[fi].1.Dict? &&
      OsRowIn(variant, families[fi].0, families[fi].1.entries, row);
    OsRowPrefix(variant, families[fi].0, families[fi].1.entries, row);
  }

  lemma OsRowPrefix(variant: string, family: string, oses: Entries, row: Row)
    requires OsRowIn(variant, family, oses, row)
    ensures IsPrefix(variant + [':'], row.0)
  {
    var o :| 0 <= o < |oses| && OsPackagers(oses[o].1).Ok? &&
      PackagerRowIn(variant, family, oses[o].0, OsPackagers(oses[o].1).value, row);
    var ps := OsPackagers(oses[o].1).value;
    var p :| 0 <= p < |ps| && row.0 == Key(variant, family, oses[o].0, ps[p].0) &&
      Mandatory(ps[p].1) == Ok(row.1);
    KeyPrefix(variant, family, oses[o].0, ps[p].0);
  }

  /** The dict `flatten_packages` returns. */
  function FlattenPackages(variant: string, data: Value): (r: Result<map<string, seq<Value>>>)
    ensures r.Ok? <==> PackageRows(variant, data).Ok?
    ensures r.Ok? ==> forall k :: k in r.value ==> IsPrefix(variant + [':'], k)
    ensures r.Ok? ==> r.value == ToMap(PackageRows(variant, data).value)
  {
    match PackageRows(variant, data)
    case Raised(e) => Raised(e)
    case Ok(rows) =>
      var m := ToMap(rows);
      assert forall k :: k in m ==> IsPrefix(variant + [':'], k) by {
        forall k | k in m ensures IsPrefix(variant + [':'], k) {
          var i :| 0 <= i < |rows| && rows[i].0 == k;
          RowKeyPrefix(variant, data, rows[i]);
        }
      }
      Ok(m)
  }

  /** Keys under two different one-word variants cannot meet. */
  lemma PrefixesApart(k: string)
    requires IsPrefix("client" + [':'], k)
    ensures !IsPrefix("server" + [':'], k)
  {
    assert k[..7] == "client:";
    assert k[0] == 'c';
  }

  /** Client and server keys cannot meet: every key carries its variant, so
      the server update in `generate` overwrites no client entry. */
  lemma VariantsDisjoint(c: map<string, seq<Value>>, s: map<string, seq<Value>>, client: Value, server: Value)
    requires FlattenPackages("client", client) == Ok(c) && FlattenPackages("server", server) == Ok(s)
    ensures c.Keys !! s.Keys
    ensures forall k :: k in c ==> (c + s)[k] == c[k]
  {
    forall k | k in c ensures k !in s {
      PrefixesApart(k);
    }
  }

  // ---- flatten_map ----

  type MapRow = (string, seq<Value>)

  function MapPkgmgrRow(dep: string, family: string, os: string): (string, Value) -> Result<seq<MapRow>> {
    (pkgmgr: string, pkgList: Value) =>
      match ListOrEmpty(pkgList)
      case Raised(e) => Raised(e)
      case Ok(pkgs) => Ok([(Key(dep, family, os, pkgmgr), pkgs)])
  }

  /** Each level below a dependency is skipped unless it is a mapping. */
  function MapOsRows(dep: string, family: string): (string, Value) -> Result<seq<MapRow>> {
    (os: string, pkgmgrMap: Value) =>
      if !pkgmgrMap.Dict? then Ok([]) else Collect(pkgmgrMap.entries, MapPkgmgrRow(dep, family, os))
  }

  function MapFamilyRows(dep: string): (string, Value) -> Result<seq<MapRow>> {
    (family: string, osMap: Value) =>
      if !osMap.Dict? then Ok([]) else Collect(osMap.entries, MapOsRows(dep, family))
  }

  function MapDepRows(): (string, Value) -> Result<seq<MapRow>> {
    (dep: string, families: Value) =>
      if !families.Dict? then Ok([]) else Collect(families.entries, MapFamilyRows(dep))
  }

  /** `load_yaml(deps-map.yaml).get("map", {}).items()` */
  function MapDeps(doc: Value): Result<Entries> {
    match Get(doc, "map", Dict([]))
    case Raised(e) => Raised(e)
    case Ok(m) => Items(m)
  }

  /** The rows `flatten_map` assigns, in order. */
  function MapRows(doc: Value): Result<seq<MapRow>> {
    match MapDeps(doc)
    case Raised(e) => Raised(e)
    case Ok(deps) => Collect(deps, MapDepRows())
  }

  predicate PkgmgrRowIn(dep: string, family: string, os: string, pkgmgrs: Entries, row: MapRow) {
    exists p :: 0 <= p < |pkgmgrs| &&
      row.0 == Key(dep, family, os, pkgmgrs[p].0) && ListOrEmpty(pkgmgrs[p].1) == Ok(row.1)
  }

  predicate MapOsRowIn(dep: string, family: string, oses: Entries, row: MapRow) {
    exists o :: 0 <= o < |oses| && oses[o].1.Dict? && PkgmgrRowIn(dep, family, oses[o].0, oses[o].1.entries, row)
  }

  predicate MapFamilyRowIn(dep: string, families: Entries, row: MapRow) {
    exists f :: 0 <= f < |families| && families[f].1.Dict? && MapOsRowIn(dep, families[f].0, families[f].1.entries, row)
  }

  predicate MapDepRowIn(deps: Entries, row: MapRow) {
    exists d :: 0 <= d < |deps| && deps[d].1.Dict? && MapFamilyRowIn(deps[d].0, deps[d].1.entries, row)
  }

  lemma PkgmgrRowsExact(dep: string, family: string, os: string, pkgmgrs: Entries, row: MapRow)
    requires Collect(pkgmgrs, MapPkgmgrRow(dep, family, os)).Ok?
    ensures row in Collect(pkgmgrs, MapPkgmgrRow(dep, family, os)).value <==>
      PkgmgrRowIn(dep, family, os, pkgmgrs, row)
  {
    var f := MapPkgmgrRow(dep, family, os);
    if row in Collect(pkgmgrs, f).value {
      var p :| 0 <= p < |pkgmgrs| && row in f(pkgmgrs[p].0, pkgmgrs[p].1).value;
      assert row.0 == Key(dep, family, os, pkgmgrs[p].0) && ListOrEmpty(pkgmgrs[p].1) == Ok(row.1);
    }
    if PkgmgrRowIn(dep, family, os, pkgmgrs, row) {
      var p :| 0 <= p < |pkgmgrs| &&
        row.0 == Key(dep, family, os, pkgmgrs[p].0) && ListOrEmpty(pkgmgrs[p].1) == Ok(row.1);
      assert row in f(pkgmgrs[p].0, pkgmgrs[p].1).value;
    }
  }

  lemma MapOsRowsExact(dep: string, family: string, oses: Entries, row: MapRow)
    requires Collect(oses, MapOsRows(dep, family)).Ok?
    ensures row in Collect(oses, MapOsRows(dep, family)).value <==> MapOsRowIn(dep, family, oses, row)
  {
    var f := MapOsRows(dep, family);
    if row in Collect(oses, f).value {
      var o :| 0 <= o < |oses| && row in f(oses[o].0, oses[o].1).value;
      assert oses[o].1.Dict?;
      PkgmgrRowsExact(dep, family, oses[o].0, oses[o].1.entries, row);
    }
    if MapOsRowIn(dep, family, oses, row) {
      var o :| 0 <= o < |oses| && oses[o].1.Dict? && PkgmgrRowIn(dep, family, oses[o].0, oses[o].1.entries, row);
      assert f(oses[o].0, oses[o].1).Ok?;
      PkgmgrRowsExact(dep, family, oses[o].0, oses[o].1.entries, row);
      assert row in f(oses[o].0, oses[o].1).value;
    }
  }

  lemma MapFamilyRowsExact(dep: string, families: Entries, row: MapRow)
    requires Collect(families, MapFamilyRows(dep)).Ok?
    ensures row in Collect(families, MapFamilyRows(dep)).value <==> MapFamilyRowIn(dep, families, row)
  {
    var f := MapFamilyRows(dep);
    if row in Collect(families, f).value {
      var i :| 0 <= i < |families| && row in f(families[i].0, families[i].1).value;
      assert families[i].1.Dict?;
      MapOsRowsExact(dep, families[i].0, families[i].1.entries, row);
    }
    if MapFamilyRowIn(dep, families, row) {
      var i :| 0 <= i < |families| && families[i].1.Dict? && MapOsRowIn(dep, families[i].0, families[i].1.entries, row);
      assert f(families[i].0, families[i].1).Ok?;
      MapOsRowsExact(dep, families[i].0, families[i].1.entries, row);
      assert row in f(families[i].0, families[i].1).value;
    }
  }

  /** `flatten_map` writes one row per package manager reached through
      mapping levels only, keyed `dep:family:os:pkgmgr` and holding
      `list(pkg_list or [])`. */
  lemma MapRowsExact(doc: Value, row: MapRow)
    requires MapRows(doc).Ok?
    ensures MapDeps(doc).Ok?
    ensures row in MapRows(doc).value <==> MapDepRowIn(MapDeps(doc).value, row)
  {
    var deps := MapDeps(doc).value;
    var f := MapDepRows();
    if row in Collect(deps, f).value {
      var i :| 0 <= i < |deps| && row in f(deps[i].0, deps[i].1).value;
      assert deps[i].1.Dict?;
      MapFamilyRowsExact(deps[i].0, deps[i].1.entries, row);
    }
    if MapDepRowIn(deps, row) {
      var i :| 0 <= i < |deps| && deps[i].1.Dict? && MapFamilyRowIn(deps[i].0, deps[i].1.entries, row);
      assert f(deps[i].0, deps[i].1).Ok?;
      MapFamilyRowsExact(deps[i].0, deps[i].1.entries, row);
      assert row in f(deps[i].0, deps[i].1).value;
    }
  }

  // ---- flatten_aliases ----

  /** The `str -> str` pairs of a mapping, in order. */
  function StringPairs(es: Entries): (r: seq<(string, string)>)
    ensures forall k, v :: (k, v) in r <==> (k, Str(v)) in es
    ensures |r| <= |es|
  {
    if |es| == 0 then []
    else
      var rest := StringPairs(es[1..]);
      assert es == [es[0]] + es[1..];
      if es[0].1.Str? then [(es[0].0, es[0].1.s)] + rest else rest
  }

  /** `load_yaml(deps-map.yaml).get("aliases", {}).items()`, filtered. */
  function AliasPairs(doc: Value): Result<seq<(string, string)>> {
    match Get(doc, "aliases", Dict([]))
    case Raised(e) => Raised(e)
    case Ok(aliases) =>
      match Items(aliases)
      case Raised(e) => Raised(e)
      case Ok(es) => Ok(StringPairs(es))
  }

  /** `flatten_aliases`: exactly the aliases whose target is a string. */
  function FlattenAliases(doc: Value): (r: Result<map<string, string>>)
    ensures r.Ok? <==> doc.Dict? && GetOr(doc.entries, "aliases", Dict([])).Dict?
    ensures r.Ok? ==> var es := GetOr(doc.entries, "aliases", Dict([])).entries;
      (forall k :: k in r.value ==> (k, Str(r.value[k])) in es) &&
      (forall k, v :: (k, Str(v)) in es ==> k in r.value)
  {
    match AliasPairs(doc)
    case Raised(e) => Raised(e)
    case Ok(pairs) =>
      var m := ToMap(pairs);
      assert forall k :: k in m ==> (k, m[k]) in pairs by {
        forall k | k in m ensures (k, m[k]) in pairs {
          LastWrite(pairs, k);
        }
      }
      assert forall k, v :: (k, v) in pairs ==> k in m by {
        forall k, v | (k, v) in pairs ensures k in m {
          var i :| 0 <= i < |pairs| && pairs[i] == (k, v);
        }
      }
      Ok(m)
  }

  /** A key of a row-built dict holds the value of one of its rows. */
  lemma {:induction false} LastWrite<V>(rows: seq<(string, V)>, k: string)
    requires k in ToMap(rows)
    ensures (k, ToMap(rows)[k]) in rows
    decreases |rows|
  {
    var last := rows[|rows| - 1];
    var init := rows[..|rows| - 1];
    if last.0 != k {
      assert k in ToMap(init);
      LastWrite(init, k);
      assert forall x :: x in init ==> x in rows;
    }
  }

  // ---- line and generate ----

  /** `" ".join(items)`: a `TypeError` unless every item is a string. */
  function Line(items: seq<Value>): (r: Result<string>)
    ensures r.Ok? <==> AllStrings(items)
    ensures |items| == 0 ==> r == Ok("")
  {
    match TokenStrings(items)
    case Raised(e) => Raised(e)
    case Ok(names) => Ok(Join(names, ' '))
  }

  /** The shell side reads a line back with word splitting: a non-empty
      list of space-free names survives the round trip. */
  lemma LineSplits(names: seq<string>)
    requires |names| > 0
    requires forall n :: n in names ==> ' ' !in n
    ensures Line(Strs(names)).Ok?
    ensures Split(Line(Strs(names)).value, ' ') == names
  {
    var r := TokenStrings(Strs(names));
    assert Strs(r.value) == Strs(names);
    assert r.value == names by {
      assert forall i :: 0 <= i < |names| ==> Strs(r.value)[i] == Str(r.value[i]);
    }
    SplitJoin(names, ' ');
  }

  /** The entries of one `declare -A` table, in the order written:
      `sorted(table.items())`, each value rendered by `line`. */
  function Lines(m: map<string, seq<Value>>, keys: seq<string>): (r: Result<seq<(string, string)>>)
    requires forall i :: 0 <= i < |keys| ==> keys[i] in m
    ensures r.Ok? <==> forall i :: 0 <= i < |keys| ==> AllStrings(m[keys[i]])
    ensures r.Ok? ==> |r.value| == |keys|
    ensures r.Ok? ==> forall i :: 0 <= i < |keys| ==> r.value[i].0 == keys[i] && Line(m[keys[i]]) == Ok(r.value[i].1)
  {
    if |keys| == 0 then Ok([])
    else
      var rest := Lines(m, keys[1..]);
      assert forall i :: 1 <= i < |keys| ==> keys[i] == keys[1..][i - 1];
      match Line(m[keys[0]])
      case Raised(e) => Raised(e)
      case Ok(l) =>
        if rest.Raised? then Raised(rest.exc) else Ok([(keys[0], l)] + rest.value)
  }

  /** The three tables of `generated-packages.sh`, in file order. */
  datatype Output = Output(raw: seq<(string, string)>, mapping: seq<(string, string)>, aliases: seq<(string, string)>)

  /** The keys of a row-built dict are the keys of its rows. */
  lemma ToMapKeys(rows: seq<Row>)
    ensures forall k :: k in ToMap(rows) <==> k in Keys(rows)
  {
    forall k | k in ToMap(rows) ensures k in Keys(rows) {
      var i :| 0 <= i < |rows| && rows[i].0 == k;
      assert Keys(rows)[i] == k;
    }
    forall k | k in Keys(rows) ensures k in ToMap(rows) {
      var i :| 0 <= i < |rows| && Keys(rows)[i] == k;
      assert HasKey(rows, k);
    }
  }

  /** The sorted entries of a row-built dict. */
  function SortedTable(rows: seq<Row>): (r: Result<seq<(string, string)>>)
    ensures r.Ok? ==> StrictlySorted(Keys(r.value))
    ensures r.Ok? ==> forall k :: k in Keys(r.value) <==> k in ToMap(rows)
    ensures r.Ok? ==> forall i :: 0 <= i < |r.value| ==> Line(ToMap(rows)[r.value[i].0]) == Ok(r.value[i].1)
  {
    var m := ToMap(rows);
    var keys := SortedSet(Keys(rows));
    ToMapKeys(rows);
    assert forall i :: 0 <= i < |keys| ==> keys[i] in m;
    var r := Lines(m, keys);
    if r.Ok? then
      assert Keys(r.value) == keys;
      r
    else r
  }

  /** The sorted entries of the alias dict built from `pairs`. */
  function SortedAliases(pairs: seq<(string, string)>): (r: seq<(string, string)>)
    ensures StrictlySorted(Keys(r))
    ensures forall k :: k in Keys(r) <==> k in ToMap(pairs)
    ensures forall i :: 0 <= i < |r| ==> r[i].0 in ToMap(pairs) && r[i].1 == ToMap(pairs)[r[i].0]
  {
    var m := ToMap(pairs);
    var keys := SortedSet(Keys(pairs));
    assert forall i :: 0 <= i < |keys| ==> keys[i] in m by {
      forall i | 0 <= i < |keys| ensures keys[i] in m {
        assert keys[i] in Keys(pairs);
      }
    }
    var r := seq(|keys|, i requires 0 <= i < |keys| => (keys[i], m[keys[i]]));
    assert Keys(r) == keys;
    assert forall k :: k in m ==> k in keys by {
      forall k | k in m ensures k in keys {
        var i :| 0 <= i < |pairs| && pairs[i].0 == k;
        assert Keys(pairs)[i] == k;
      }
    }
    r
  }

  /** `generate()`: both build documents, then the map and aliases of
      `deps-map.yaml`, then the three tables in sorted key order. An
      exception anywhere ends the run. */
  function Generate(client: Value, server: Value, depMap: Value): (r: Result<Output>)
    ensures r.Ok? ==> StrictlySorted(Keys(r.value.raw))
    ensures r.Ok? ==> StrictlySorted(Keys(r.value.mapping))
    ensures r.Ok? ==> StrictlySorted(Keys(r.value.aliases))
    ensures r.Ok? ==> (PackageRows("client", client).Ok? && PackageRows("server", server).Ok? &&
      SortedTable(PackageRows("client", client).value + PackageRows("server", server).value) == Ok(r.value.raw))
    ensures r.Ok? ==> MapRows(depMap).Ok? && SortedTable(MapRows(depMap).value) == Ok(r.value.mapping)
    ensures r.Ok? ==> AliasPairs(depMap).Ok? && r.value.aliases == SortedAliases(AliasPairs(depMap).value)
  {
    var clientRows :- PackageRows("client", client);
    var serverRows :- PackageRows("server", server);
    var mapRows :- MapRows(depMap);
    var aliasPairs :- AliasPairs(depMap);
    var raw :- SortedTable(clientRows + serverRows);
    var mapping :- SortedTable(mapRows);
    Ok(Output(raw, mapping, SortedAliases(aliasPairs)))
  }

  /** The raw table lists every client and every server packager key once,
      each with the `line` of its own list: the server rows overwrite no
      client row. */
  lemma GenerateRaw(client: Value, server: Value, depMap: Value)
    requires Generate(client, server, depMap).Ok?
    ensures FlattenPackages("client", client).Ok? && FlattenPackages("server", server).Ok?
    ensures var raw := Generate(client, server, depMap).value.raw;
      var c := FlattenPackages("client", client).value;
      var s := FlattenPackages("server", server).value;
      (forall k :: k in Keys(raw) <==> k in c || k in s) &&
      (forall i :: 0 <= i < |raw| && raw[i].0 in c ==> Line(c[raw[i].0]) == Ok(raw[i].1)) &&
      (forall i :: 0 <= i < |raw| && raw[i].0 in s ==> Line(s[raw[i].0]) == Ok(raw[i].1))
  {
    var clientRows := PackageRows("client", client).value;
    var serverRows := PackageRows("server", server).value;
    var c := FlattenPackages("client", client).value;
    var v := FlattenPackages("server", server).value;
    VariantsDisjoint(c, v, client, server);
    RawFromRows(clientRows, serverRows, Generate(client, server, depMap).value.raw, c, v);
  }

  lemma RawFromRows(clientRows: seq<Row>, serverRows: seq<Row>, raw: seq<(string, string)>,
                    c: map<string, seq<Value>>, v: map<string, seq<Value>>)
    requires SortedTable(clientRows + serverRows) == Ok(raw)
    requires c == ToMap(clientRows) && v == ToMap(serverRows)
    requires forall k :: k in c ==> (c + v)[k] == c[k]
    ensures forall k :: k in Keys(raw) <==> k in c || k in v
    ensures forall i :: 0 <= i < |raw| && raw[i].0 in c ==> Line(c[raw[i].0]) == Ok(raw[i].1)
    ensures forall i :: 0 <= i < |raw| && raw[i].0 in v ==> Line(v[raw[i].0]) == Ok(raw[i].1)
  {
    ToMapAppend(clientRows, serverRows);
    assert ToMap(clientRows + serverRows) == c + v;
    assert forall i :: 0 <= i < |raw| ==> raw[i].0 in Keys(raw);
    RawLines(raw, c, v);
  }

  /** A table whose lines come from `c + v`, where `v` overwrites no key
      of `c`, has each line from the map its key came from. */
  lemma RawLines(raw: seq<(string, string)>, c: map<string, seq<Value>>, v: map<string, seq<Value>>)
    requires forall i :: 0 <= i < |raw| ==> raw[i].0 in c + v && Line((c + v)[raw[i].0]) == Ok(raw[i].1)
    requires forall k :: k in c ==> (c + v)[k] == c[k]
    ensures forall i :: 0 <= i < |raw| && raw[i].0 in c ==> Line(c[raw[i].0]) == Ok(raw[i].1)
    ensures forall i :: 0 <= i < |raw| && raw[i].0 in v ==> Line(v[raw[i].0]) == Ok(raw[i].1)
  {
  }
}
