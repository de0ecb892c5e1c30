/** Token resolution against the dependency map document (`deps-map.yaml`):
    `aliases` rewrites one token to another, and
    `map[token][family][os][pkgmgr]` replaces a generic token by the package
    names one package manager uses. `ci/deps/check-deps.py` and
    `ci/deps/packages-from-yaml.py` carry identical copies of
    `resolve_packages`; both are this one definition. */
module DepsResolve {

  import opened Py

  /** `dep_map.get("aliases", {})` */
  function AliasTable(depMap: Entries): Value {
    match Lookup(depMap, "aliases")
    case Some(a) => a
    case None => Dict([])
  }

  /** `resolve_alias(dep, dep_map)`: the alias target when the alias table is
      a mapping that names `dep`, otherwise `dep` itself. Never raises. */
  function ResolveAlias(dep: string, depMap: Entries): (r: Value)
    ensures AliasTable(depMap).Dict? && dep in Keys(AliasTable(depMap).entries) ==>
              (dep, r) in AliasTable(depMap).entries
    ensures !(AliasTable(depMap).Dict? && dep in Keys(AliasTable(depMap).entries)) ==> r == Str(dep)
  {
    var aliases := AliasTable(depMap);
    if aliases.Dict? then
      match Lookup(aliases.entries, dep)
      case Some(target) => target
      case None => Str(dep)
    else Str(dep)
  }

  /** `dep_map.get("map", {})`, evaluated once before the loop. */
  function MapBlock(depMap: Entries): Value {
    match Lookup(depMap, "map")
    case Some(m) => m
    case None => Dict([])
  }

  /** The replacement list for one token: `map[item][family][os][pkgmgr]`
      when every level on the way is a mapping and the list there is truthy;
      `None` when the token passes through. Raises when the map block is not a
      mapping or the token is unhashable. */
  function Replacement(mapBlock: Value, item: Value, family: string, os: string, pkgmgr: string)
    : Result<Option<Value>>
  {
    var mapped :- GetByValue(mapBlock, item, Dict([]));
    if !mapped.Dict? then Ok(None)
    else
      var familyEntry := Get(mapped, family, Dict([])).value;
      if !familyEntry.Dict? then Ok(None)
      else
        var osEntry := Get(familyEntry, os, Dict([])).value;
        if !osEntry.Dict? then Ok(None)
        else
          var pkgList := Get(osEntry, pkgmgr, List([])).value;
          if Truthy(pkgList) then Ok(Some(pkgList)) else Ok(None)
  }

  /** One loop iteration: `resolved.extend(pkg_list)` or `resolved.append(item)`. */
  function ResolveItem(mapBlock: Value, item: Value, family: string, os: string, pkgmgr: string)
    : (r: Result<seq<Value>>)
    ensures r.Ok? ==> |r.value| >= 1
    ensures Replacement(mapBlock, item, family, os, pkgmgr) == Ok(None) ==> r == Ok([item])
  {
    var repl :- Replacement(mapBlock, item, family, os, pkgmgr);
    match repl
    case Some(pkgList) => Iter(pkgList)
    case None => Ok([item])
  }

  /** The loop of `resolve_packages` over `items`, in order. */
  function ResolveItems(items: seq<Value>, mapBlock: Value, family: string, os: string, pkgmgr: string)
    : (r: Result<seq<Value>>)
    ensures items == [] ==> r == Ok([])
    ensures r.Ok? ==> |r.value| >= |items|
    ensures r.Ok? <==> forall i :: 0 <= i < |items| ==> ResolveItem(mapBlock, items[i], family, os, pkgmgr).Ok?
  {
    if |items| == 0 then Ok([])
    else
      var head := ResolveItem(mapBlock, items[0], family, os, pkgmgr);
      var tail := ResolveItems(items[1..], mapBlock, family, os, pkgmgr);
      assert forall i :: 1 <= i < |items| ==> items[i] == items[1..][i - 1];
      if head.Raised? then Raised(head.exc)
      else if tail.Raised? then Raised(tail.exc)
      else Ok(head.value + tail.value)
  }

  /** `resolve_packages(items, dep_map, family, os_name, pkgmgr)` */
  function ResolvePackages(items: seq<Value>, depMap: Entries, family: string, os: string, pkgmgr: string)
    : Result<seq<Value>>
  {
    ResolveItems(items, MapBlock(depMap), family, os, pkgmgr)
  }

  /** Resolution distributes over concatenation: each token's replacement
      lands where the token stood, and relative order is kept. */
  lemma {:induction false} ResolveAppend(a: seq<Value>, b: seq<Value>, mapBlock: Value, family: string, os: string, pkgmgr: string)
    ensures ResolveItems(a + b, mapBlock, family, os, pkgmgr) ==
      (var ra := ResolveItems(a, mapBlock, family, os, pkgmgr);
       var rb := ResolveItems(b, mapBlock, family, os, pkgmgr);
       if ra.Raised? then ra
       else if rb.Raised? then rb
       else Ok(ra.value + rb.value))
    decreases |a|
  {
    if |a| > 0 {
      assert (a + b)[1..] == a[1..] + b;
      assert (a + b)[0] == a[0];
      ResolveAppend(a[1..], b, mapBlock, family, os, pkgmgr);
      var h := ResolveItem(mapBlock, a[0], family, os, pkgmgr);
      var r1 := ResolveItems(a[1..], mapBlock, family, os, pkgmgr);
      var rb := ResolveItems(b, mapBlock, family, os, pkgmgr);
      if h.Ok? && r1.Ok? && rb.Ok? {
        assert h.value + (r1.value + rb.value) == (h.value + r1.value) + rb.value;
      }
    } else {
      assert a + b == b;
      var rb := ResolveItems(b, mapBlock, family, os, pkgmgr);
      if rb.Ok? { assert [] + rb.value == rb.value; }
    }
  }

  /** A token with no mapping (or an empty list) at
      `map[t][family][os][pkgmgr]` is emitted unchanged, in place. */
  lemma PassThroughInPlace(before: seq<Value>, t: Value, after: seq<Value>, mapBlock: Value, family: string, os: string, pkgmgr: string)
    requires Replacement(mapBlock, t, family, os, pkgmgr) == Ok(None)
    requires ResolveItems(before, mapBlock, family, os, pkgmgr).Ok?
    requires ResolveItems(after, mapBlock, family, os, pkgmgr).Ok?
    ensures ResolveItems(before + [t] + after, mapBlock, family, os, pkgmgr) ==
      Ok(ResolveItems(before, mapBlock, family, os, pkgmgr).value + [t] + ResolveItems(after, mapBlock, family, os, pkgmgr).value)
  {
    ResolveAppend(before + [t], after, mapBlock, family, os, pkgmgr);
    ResolveAppend(before, [t], mapBlock, family, os, pkgmgr);
    assert ResolveItems([t], mapBlock, family, os, pkgmgr) == Ok([t]) by {
      assert [t][1..] == [];
      assert [t] + [] == [t];
    }
  }

  /** A mapped token is replaced by its whole list, in place. */
  lemma ReplacedInPlace(before: seq<Value>, t: Value, after: seq<Value>, mapBlock: Value, family: string, os: string, pkgmgr: string, pkgs: seq<Value>)
    requires Replacement(mapBlock, t, family, os, pkgmgr) == Ok(Some(List(pkgs)))
    requires ResolveItems(before, mapBlock, family, os, pkgmgr).Ok?
    requires ResolveItems(after, mapBlock, family, os, pkgmgr).Ok?
    ensures |pkgs| > 0
    ensures ResolveItems(before + [t] + after, mapBlock, family, os, pkgmgr) ==
      Ok(ResolveItems(before, mapBlock, family, os, pkgmgr).value + pkgs + ResolveItems(after, mapBlock, family, os, pkgmgr).value)
  {
    ResolveAppend(before + [t], after, mapBlock, family, os, pkgmgr);
    ResolveAppend(before, [t], mapBlock, family, os, pkgmgr);
    assert ResolveItems([t], mapBlock, family, os, pkgmgr) == Ok(pkgs) by {
      assert [t][1..] == [];
      assert pkgs + [] == pkgs;
    }
  }

  /** The declared shape of the `map` block: nested mappings whose leaves
      are lists (or empty/null). */
  predicate ListLeaves(m: Value) {
    m.Dict? &&
    forall e1 | e1 in m.entries && e1.1.Dict? ::
      forall e2 | e2 in e1.1.entries && e2.1.Dict? ::
        forall e3 | e3 in e2.1.entries && e3.1.Dict? ::
          forall e4 | e4 in e3.1.entries :: e4.1.List? || !Truthy(e4.1)
  }

  /** Resolution of string tokens never raises when the map block has the
      declared shape; an absent block counts as `{}`. */
  lemma ResolveTotal(tokens: seq<string>, depMap: Entries, family: string, os: string, pkgmgr: string)
    requires ListLeaves(MapBlock(depMap))
    ensures ResolvePackages(Strs(tokens), depMap, family, os, pkgmgr).Ok?
  {
    var items := Strs(tokens);
    forall i | 0 <= i < |items|
      ensures ResolveItem(MapBlock(depMap), items[i], family, os, pkgmgr).Ok?
    {
      ResolveTokenTotal(tokens[i], MapBlock(depMap), family, os, pkgmgr);
    }
  }

  /** One string token resolves without raising under a map block of the
      declared shape. */
  lemma ResolveTokenTotal(t: string, m: Value, family: string, os: string, pkgmgr: string)
    requires ListLeaves(m)
    ensures ResolveItem(m, Str(t), family, os, pkgmgr).Ok?
  {
    var mapped := Get(m, t, Dict([])).value;
    if mapped.Dict? && t in Keys(m.entries) {
      assert (t, mapped) in m.entries;
      var fe := Get(mapped, family, Dict([])).value;
      if fe.Dict? && family in Keys(mapped.entries) {
        assert (family, fe) in mapped.entries;
        var oe := Get(fe, os, Dict([])).value;
        if oe.Dict? && os in Keys(fe.entries) {
          assert (os, oe) in fe.entries;
          var leaf := Get(oe, pkgmgr, List([])).value;
          if pkgmgr in Keys(oe.entries) {
            assert (pkgmgr, leaf) in oe.entries;
          }
        }
      }
    }
  }
}
