/** `ci/deps/packages-from-yaml.py`: prints the package list for one
    variant, family, OS and package manager, after dropping the tokens the
    feature switches turn off and resolving the rest through
    `deps-map.yaml` (the shared `DepsResolve.ResolvePackages`). */
module PackagesFromYaml {

  import opened Text
  import opened Py
  import opened DepsResolve

  // ---- normalize_onoff ----

  predicate IsOnWord(w: string) {
    w == "ON" || w == "YES" || w == "Y" || w == "TRUE" || w == "1"
  }

  predicate IsOffWord(w: string) {
    w == "OFF" || w == "NO" || w == "N" || w == "FALSE" || w == "0"
  }

  /** `normalize_onoff(val, default)`: an absent switch takes the default;
      a given one is stripped and upper-cased, and its synonyms collapse to
      `ON` or `OFF`; anything else passes through in its cleaned-up form. */
  function NormalizeOnOff(val: Option<string>, default: string): (r: string)
    ensures val.None? ==> r == default
    ensures val.Some? ==> (r == "ON" <==> IsOnWord(UpperString(Strip(val.value))))
    ensures val.Some? ==> (r == "OFF" <==> IsOffWord(UpperString(Strip(val.value))))
    ensures val.Some? && !IsOnWord(UpperString(Strip(val.value))) && !IsOffWord(UpperString(Strip(val.value))) ==>
      r == UpperString(Strip(val.value))
  {
    match val
    case None => default
    case Some(v) =>
      var w := UpperString(Strip(v));
      if IsOnWord(w) then "ON"
      else if IsOffWord(w) then "OFF"
      else w
  }

  /** Upper-casing leaves whitespace where it was. */
  lemma UpperKeepsSpace(c: char)
    ensures IsPySpace(ToUpper(c)) <==> IsPySpace(c)
  {
  }

  /** A stripped string has no whitespace at either end. */
  lemma StripEnds(s: string)
    ensures |Strip(s)| > 0 ==> !IsPySpace(Strip(s)[0]) && !IsPySpace(Strip(s)[|Strip(s)| - 1])
  {
    var l := TrimLeft(s);
    var r := TrimRight(l);
    if |r| > 0 {
      assert r[0] == l[0];
    }
  }

  /** Stripping a string without whitespace at its ends changes nothing. */
  lemma StripNoop(s: string)
    requires |s| > 0 ==> !IsPySpace(s[0]) && !IsPySpace(s[|s| - 1])
    ensures Strip(s) == s
  {
  }

  lemma {:induction false} UpperIdempotent(s: string)
    ensures UpperString(UpperString(s)) == UpperString(s)
  {
    var u := UpperString(s);
    assert forall i :: 0 <= i < |u| ==> UpperString(u)[i] == u[i];
  }

  /** The cleaned-up form is stable: cleaning it again gives it back. */
  lemma CleanStable(v: string)
    ensures UpperString(Strip(UpperString(Strip(v)))) == UpperString(Strip(v))
  {
    var s := Strip(v);
    var u := UpperString(s);
    StripEnds(v);
    if |u| > 0 {
      UpperKeepsSpace(s[0]);
      UpperKeepsSpace(s[|s| - 1]);
    }
    StripNoop(u);
    UpperIdempotent(s);
  }

  /** Normalising a normalised switch value changes nothing. */
  lemma NormalizeOnOffIdempotent(v: string, default: string)
    ensures NormalizeOnOff(Some(NormalizeOnOff(Some(v), default)), default) == NormalizeOnOff(Some(v), default)
  {
    var w := UpperString(Strip(v));
    if IsOnWord(w) || IsOffWord(w) {
      KeywordStable(NormalizeOnOff(Some(v), default), default);
    } else {
      CleanStable(v);
    }
  }

  /** Upper-casing a string without lower-case letters changes nothing. */
  lemma UpperNoop(s: string)
    requires forall i :: 0 <= i < |s| ==> !IsLower(s[i])
    ensures UpperString(s) == s
  {
  }

  /** `ON` and `OFF` normalise to themselves. */
  lemma KeywordStable(r: string, default: string)
    requires r == "ON" || r == "OFF"
    ensures NormalizeOnOff(Some(r), default) == r
  {
    assert |r| > 0 && !IsPySpace(r[0]) && !IsPySpace(r[|r| - 1]);
    assert forall i :: 0 <= i < |r| ==> !IsLower(r[i]);
    StripNoop(r);
    UpperNoop(r);
  }

  // ---- The feature filters ----

  /** `[item for item in items if item != token]` */
  function Drop(items: seq<Value>, token: string): (r: seq<Value>)
    ensures Str(token) !in r
    ensures forall x :: x != Str(token) ==> multiset(r)[x] == multiset(items)[x]
    ensures |r| <= |items|
  {
    if |items| == 0 then []
    else
      assert items == [items[0]] + items[1..];
      if items[0] == Str(token) then Drop(items[1..], token)
      else [items[0]] + Drop(items[1..], token)
  }

  /** Dropping a token keeps the relative order of everything else: it
      distributes over concatenation. */
  lemma {:induction false} DropAppend(a: seq<Value>, b: seq<Value>, token: string)
    ensures Drop(a + b, token) == Drop(a, token) + Drop(b, token)
    decreases |a|
  {
    if |a| == 0 {
      assert a + b == b;
    } else {
      assert (a + b)[0] == a[0];
      assert (a + b)[1..] == a[1..] + b;
      DropAppend(a[1..], b, token);
    }
  }

  /** A list without the token is left alone. */
  lemma {:induction false} DropAbsent(items: seq<Value>, token: string)
    requires Str(token) !in items
    ensures Drop(items, token) == items
    decreases |items|
  {
    if |items| > 0 {
      assert items == [items[0]] + items[1..];
      DropAbsent(items[1..], token);
    }
  }

  datatype Variant = ClientVariant | ServerVariant

  /** The command line, after argparse: `--variant`, `--family`, `--os`,
      `--pkgmgr`, and the two optional switches as given. */
  datatype Args = Args(variant: Variant, family: string, os: string, pkgmgr: string,
                       enableLdap: Option<string>, enableSnmp: Option<string>)

  /** The items after the variant and family filters. */
  function Filtered(args: Args, items: seq<Value>): (r: seq<Value>)
    ensures args.variant.ServerVariant? && NormalizeOnOff(args.enableLdap, "OFF") == "OFF" ==> Str("LDAP") !in r
    ensures args.variant.ServerVariant? && NormalizeOnOff(args.enableSnmp, "OFF") == "OFF" ==> Str("NETSNMP") !in r
    ensures args.family == "bsd" ==> Str("LDAP") !in r
    ensures forall x :: x != Str("LDAP") && x != Str("NETSNMP") ==> multiset(r)[x] == multiset(items)[x]
  {
    var ldap := NormalizeOnOff(args.enableLdap, "OFF");
    var snmp := NormalizeOnOff(args.enableSnmp, "OFF");
    var a := if args.variant.ServerVariant? && ldap == "OFF" then Drop(items, "LDAP") else items;
    var b := if args.variant.ServerVariant? && snmp == "OFF" then Drop(a, "NETSNMP") else a;
    var c := if args.family == "bsd" then Drop(b, "LDAP") else b;
    assert Str("LDAP") !in a ==> Str("LDAP") !in b by {
      if Str("LDAP") in b {
        assert multiset(b)[Str("LDAP")] == multiset(a)[Str("LDAP")];
      }
    }
    assert Str("NETSNMP") !in b ==> Str("NETSNMP") !in c by {
      if Str("NETSNMP") in c {
        assert multiset(c)[Str("NETSNMP")] == multiset(b)[Str("NETSNMP")];
      }
    }
    assert forall x :: x != Str("LDAP") && x != Str("NETSNMP") ==> multiset(c)[x] == multiset(items)[x] by {
      forall x | x != Str("LDAP") && x != Str("NETSNMP") ensures multiset(c)[x] == multiset(items)[x] {
        assert multiset(a)[x] == multiset(items)[x];
        assert multiset(b)[x] == multiset(a)[x];
        assert multiset(c)[x] == multiset(b)[x];
      }
    }
    c
  }

  /** The client list does not depend on the switches. */
  lemma ClientIgnoresSwitches(args: Args, ldap: Option<string>, snmp: Option<string>, items: seq<Value>)
    requires args.variant.ClientVariant?
    ensures Filtered(args.(enableLdap := ldap, enableSnmp := snmp), items) == Filtered(args, items)
  {
  }

  /** Outside BSD and with both switches on, nothing is dropped. */
  lemma AllOnKeepsEverything(args: Args, items: seq<Value>)
    requires args.family != "bsd"
    requires NormalizeOnOff(args.enableLdap, "OFF") == "ON" && NormalizeOnOff(args.enableSnmp, "OFF") == "ON"
    ensures Filtered(args, items) == items
  {
  }

  // ---- main ----

  /** What a run produces: the package names printed one per line (exit 0),
      exit 1 with nothing on standard output, or an uncaught exception. */
  datatype Outcome = Printed(packages: seq<Value>) | Failed(code: int) | Crashed(exc: Exc)

  /** `data["build"][family][os]["packagers"][pkgmgr]["libs"]["mandatory"]`;
      any exception on the way is caught. */
  function PackageBlock(data: Entries, args: Args): Result<Value> {
    var build :- Index(Dict(data), "build");
    var familyEntry :- Index(build, args.family);
    var osEntry :- Index(familyEntry, args.os);
    var packagers :- Index(osEntry, "packagers");
    var pkg :- Index(packagers, args.pkgmgr);
    var libs :- Index(pkg, "libs");
    Index(libs, "mandatory")
  }

  /** `main()` on loaded documents: the variant's document and the map
      document (`{}` when the map file does not exist). */
  function Main(args: Args, data: Entries, depMap: Entries): (o: Outcome)
    ensures o == Failed(1) <==> PackageBlock(data, args).Raised?
  {
    match PackageBlock(data, args)
    case Raised(_) => Failed(1)
    case Ok(block) =>
      match ListOrEmpty(block)
      case Raised(e) => Crashed(e)
      case Ok(items) =>
        match ResolvePackages(Filtered(args, items), depMap, args.family, args.os, args.pkgmgr)
        case Raised(e) => Crashed(e)
        case Ok(resolved) => Printed(resolved)
  }

  /** A successful run prints the resolution of the filtered token list. */
  lemma MainPrints(args: Args, data: Entries, depMap: Entries)
    requires Main(args, data, depMap).Printed?
    ensures PackageBlock(data, args).Ok? && ListOrEmpty(PackageBlock(data, args).value).Ok?
    ensures var items := ListOrEmpty(PackageBlock(data, args).value).value;
      Main(args, data, depMap).packages == ResolvePackages(Filtered(args, items), depMap, args.family, args.os, args.pkgmgr).value
  {
  }

  /** A string token list resolves without raising when the map block has
      the declared shape, so the only exit-1 path is the failed lookup. */
  lemma MainPrintsForStringTokens(args: Args, data: Entries, depMap: Entries, tokens: seq<string>)
    requires PackageBlock(data, args) == Ok(List(Strs(tokens)))
    requires ListLeaves(MapBlock(depMap))
    ensures Main(args, data, depMap).Printed?
  {
    var items := Strs(tokens);
    var kept := Filtered(args, items);
    assert forall i :: 0 <= i < |kept| ==> kept[i].Str? by {
      forall i | 0 <= i < |kept| ensures kept[i].Str? {
        assert kept[i] in multiset(kept);
        if kept[i] != Str("LDAP") && kept[i] != Str("NETSNMP") {
          assert multiset(items)[kept[i]] > 0;
          assert kept[i] in items;
        }
      }
    }
    var names := seq(|kept|, i requires 0 <= i < |kept| => kept[i].s);
    assert Strs(names) == kept;
    ResolveTotal(names, depMap, args.family, args.os, args.pkgmgr);
  }
}
