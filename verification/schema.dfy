/** Building blocks shared by the two schema checkers (`check_file` in
    `ci/deps/check-deps.py` and in `scripts/ci/check-deps.py`): a verdict,
    `require` as a verdict, the fail-fast sequencing of requirements, and the
    per-packager `libs.mandatory` requirement both checkers impose. */
module Schema {

  import opened Py

  /** What a failed `require` reports: the dotted key path that is missing,
      or that should have been a mapping. */
  datatype SchemaError = Missing(path: seq<string>) | NotMapping(path: seq<string>)

  /** `Accept`: every requirement held. `Reject`: a `require` failed and the
      script exits 1 with that message. `Crash`: evaluating a requirement
      raised, so the script dies with a traceback. */
  datatype Verdict = Accept | Reject(error: SchemaError) | Crash(exc: Exc)

  /** `require(cond, msg)` where evaluating `cond` may itself raise. */
  function Require(cond: Result<bool>, error: SchemaError): (v: Verdict)
    ensures v.Accept? <==> cond == Ok(true)
    ensures cond == Ok(false) ==> v == Reject(error)
    ensures cond.Raised? ==> v == Crash(cond.exc)
  {
    match cond
    case Raised(e) => Crash(e)
    case Ok(b) => if b then Accept else Reject(error)
  }

  /** Requirements evaluated in order, stopping at the first that fails. */
  function FirstFailure(vs: seq<Verdict>): (r: Verdict)
    ensures r.Accept? <==> forall i :: 0 <= i < |vs| ==> vs[i].Accept?
    ensures !r.Accept? ==>
      exists i :: 0 <= i < |vs| && r == vs[i] && forall j :: 0 <= j < i ==> vs[j].Accept?
  {
    if |vs| == 0 then Accept
    else if !vs[0].Accept? then vs[0]
    else
      var r := FirstFailure(vs[1..]);
      assert forall i :: 1 <= i < |vs| ==> vs[i] == vs[1..][i - 1];
      assert !r.Accept? ==>
        exists i :: 0 <= i < |vs| && r == vs[i] && forall j :: 0 <= j < i ==> vs[j].Accept?
      by {
        if !r.Accept? {
          var i :| 0 <= i < |vs[1..]| && r == vs[1..][i] && forall j :: 0 <= j < i ==> vs[1..][j].Accept?;
          assert r == vs[i + 1] && forall j :: 0 <= j < i + 1 ==> vs[j].Accept?;
        }
      }
      r
  }

  /** The verdict of the requirement at index `i` is reported when all
      requirements before it hold and it does not. */
  lemma FirstFailureAt(vs: seq<Verdict>, i: nat)
    requires i < |vs| && !vs[i].Accept?
    requires forall j :: 0 <= j < i ==> vs[j].Accept?
    ensures FirstFailure(vs) == vs[i]
  {
    var r := FirstFailure(vs);
    var k :| 0 <= k < |vs| && r == vs[k] && forall j :: 0 <= j < k ==> vs[j].Accept?;
    assert k == i;
  }

  /** One packager `pkg` named `name` under the key path `prefix`:
      `"libs" in pkg`, then `"mandatory" in pkg["libs"]`. */
  function PackagerVerdict(prefix: seq<string>, name: string, pkg: Value): Verdict {
    FirstFailure([
      Require(In("libs", pkg), Missing(prefix + [name, "libs"])),
      match Index(pkg, "libs")
      case Raised(e) => Crash(e)
      case Ok(libs) => Require(In("mandatory", libs), Missing(prefix + [name, "libs", "mandatory"]))
    ])
  }

  /** `for pkg_name, pkg in packagers.items(): ...` */
  function PackagersVerdict(prefix: seq<string>, packagers: Value): Verdict {
    match Items(packagers)
    case Raised(e) => Crash(e)
    case Ok(es) => FirstFailure(seq(|es|, i requires 0 <= i < |es| => PackagerVerdict(prefix, es[i].0, es[i].1)))
  }

  /** A packager as the checkers want it: a mapping with a `libs` entry in
      which Python's `"mandatory" in ...` holds. */
  predicate PackagerWellFormed(pkg: Value) {
    pkg.Dict? && "libs" in Keys(pkg.entries) && In("mandatory", Lookup(pkg.entries, "libs").value) == Ok(true)
  }

  predicate PackagersWellFormed(packagers: Value) {
    packagers.Dict? && forall i :: 0 <= i < |packagers.entries| ==> PackagerWellFormed(packagers.entries[i].1)
  }

  lemma PackagerAccepts(prefix: seq<string>, name: string, pkg: Value)
    ensures PackagerVerdict(prefix, name, pkg).Accept? <==> PackagerWellFormed(pkg)
  {
    var vs := [
      Require(In("libs", pkg), Missing(prefix + [name, "libs"])),
      match Index(pkg, "libs")
      case Raised(e) => Crash(e)
      case Ok(libs) => Require(In("mandatory", libs), Missing(prefix + [name, "libs", "mandatory"]))
    ];
    assert PackagerVerdict(prefix, name, pkg) == FirstFailure(vs);
    assert FirstFailure(vs).Accept? <==> vs[0].Accept? && vs[1].Accept?;
    if pkg.Dict? && "libs" in Keys(pkg.entries) {
      assert Index(pkg, "libs") == Ok(Lookup(pkg.entries, "libs").value);
    }
  }

  /** The packagers check accepts exactly the well-formed packagers mappings. */
  lemma PackagersAccept(prefix: seq<string>, packagers: Value)
    ensures PackagersVerdict(prefix, packagers).Accept? <==> PackagersWellFormed(packagers)
  {
    if packagers.Dict? {
      var es := packagers.entries;
      var vs := seq(|es|, i requires 0 <= i < |es| => PackagerVerdict(prefix, es[i].0, es[i].1));
      forall i | 0 <= i < |es| ensures vs[i].Accept? <==> PackagerWellFormed(es[i].1) {
        PackagerAccepts(prefix, es[i].0, es[i].1);
      }
    }
  }

  /** A data file as `load_yaml` meets it. */
  datatype Document = Absent | Unloadable | Loaded(root: Value)

  /** `load_yaml`: exits 2 unless the file loads to a mapping. */
  function Load(d: Document): (r: Option<Entries>)
    ensures r.Some? <==> d.Loaded? && d.root.Dict?
    ensures r.Some? ==> d.root == Dict(r.value)
  {
    match d
    case Loaded(Dict(es)) => Some(es)
    case _ => None
  }

  /** `for path in FILES: check_file(path)` with `check` as `check_file`: the
      exit status of the first document that fails to load (2) or to check
      (1), if any. */
  function CheckFiles(docs: seq<Document>, check: Entries -> Verdict): (r: Option<int>)
    ensures r.None? <==> forall i :: 0 <= i < |docs| ==> Load(docs[i]).Some? && check(Load(docs[i]).value).Accept?
    ensures r.Some? ==> r.value == 1 || r.value == 2
  {
    if |docs| == 0 then None
    else
      assert forall i :: 1 <= i < |docs| ==> docs[i] == docs[1..][i - 1];
      match Load(docs[0])
      case None => Some(2)
      case Some(data) => if !check(data).Accept? then Some(1) else CheckFiles(docs[1..], check)
  }
}
