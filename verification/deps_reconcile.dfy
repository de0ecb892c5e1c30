/** Set reconciliation in `ci/deps/check-deps.py`: `diff`, the choice among
    the candidate expected sets the package scripts produce for each flag
    combination, and the shapes of those candidate lists for Linux and BSD
    packagers. The package scripts themselves are parameters. */
module DepsReconcile {

  import opened Text
  import opened Py

  function ToSet(xs: seq<string>): (r: set<string>)
    ensures forall x :: x in r <==> x in xs
  {
    set x | x in xs
  }

  /** What `diff` reports: whether the sets agree, and the sorted
      `MISSING` and `EXTRA` listings. */
  datatype DiffReport = DiffReport(ok: bool, missing: seq<string>, extra: seq<string>)

  /** `diff(label, expected, actual)` */
  function Diff(expected: seq<string>, actual: seq<string>): (d: DiffReport)
    ensures StrictlySorted(d.missing) && StrictlySorted(d.extra)
    ensures forall x :: x in d.missing <==> x in expected && x !in actual
    ensures forall x :: x in d.extra <==> x in actual && x !in expected
    ensures d.ok <==> ToSet(expected) == ToSet(actual)
  {
    var missing := SortedSet(Without(expected, ToSet(actual)));
    var extra := SortedSet(Without(actual, ToSet(expected)));
    assert ToSet(expected) == ToSet(actual) ==> |missing| == 0 && |extra| == 0 by {
      if |missing| > 0 { assert missing[0] in missing; }
      if |extra| > 0 { assert extra[0] in extra; }
    }
    DiffReport(|missing| == 0 && |extra| == 0, missing, extra)
  }

  /** The elements of `xs` outside `drop`, in order. */
  function Without(xs: seq<string>, drop: set<string>): (r: seq<string>)
    ensures forall x :: x in r <==> x in xs && x !in drop
  {
    if |xs| == 0 then []
    else if xs[0] in drop then Without(xs[1..], drop)
    else [xs[0]] + Without(xs[1..], drop)
  }

  /** The two listings `diff` prints are each other's mirror image. */
  lemma DiffMirror(a: seq<string>, b: seq<string>)
    ensures Diff(a, b).missing == Diff(b, a).extra
    ensures Diff(a, b).extra == Diff(b, a).missing
    ensures Diff(a, b).ok == Diff(b, a).ok
  {
    SortedUnique(Diff(a, b).missing, Diff(b, a).extra);
    SortedUnique(Diff(a, b).extra, Diff(b, a).missing);
  }

  // ---- Choosing among candidate expectations ----

  /** `next((exp for exp in candidates if set(exp) == set(actual)), None)`,
      as the index of the candidate found. */
  function FirstMatch(candidates: seq<seq<string>>, actual: seq<string>): (r: Option<nat>)
    ensures r.Some? ==> r.value < |candidates| && ToSet(candidates[r.value]) == ToSet(actual)
    ensures r.Some? ==> forall j :: 0 <= j < r.value ==> ToSet(candidates[j]) != ToSet(actual)
    ensures r.None? <==> forall j :: 0 <= j < |candidates| ==> ToSet(candidates[j]) != ToSet(actual)
  {
    if |candidates| == 0 then None
    else if ToSet(candidates[0]) == ToSet(actual) then Some(0)
    else
      var rest := FirstMatch(candidates[1..], actual);
      assert forall j :: 1 <= j < |candidates| ==> candidates[j] == candidates[1..][j - 1];
      match rest
      case None => None
      case Some(k) => Some(k + 1)
  }

  /** The outcome for one actual list: the candidate that matched, or the
      `diff` against candidate 0 that is printed and folded into `ok`. */
  datatype Reconciliation = Matched(index: nat) | Mismatch(report: DiffReport)

  function Reconcile(candidates: seq<seq<string>>, actual: seq<string>): (r: Reconciliation)
    requires |candidates| > 0
    ensures r.Matched? ==> FirstMatch(candidates, actual) == Some(r.index)
    ensures r.Mismatch? ==> FirstMatch(candidates, actual).None? && r.report == Diff(candidates[0], actual)
  {
    match FirstMatch(candidates, actual)
    case Some(k) => Matched(k)
    case None => Mismatch(Diff(candidates[0], actual))
  }

  /** What `ok &= diff(...)` keeps: a match leaves `ok` alone, a mismatch
      clears it exactly when its diff is not clean. */
  predicate Passes(r: Reconciliation) {
    r.Matched? || r.report.ok
  }

  /** A list passes exactly when some candidate holds the same set, so the
      diff against candidate 0 is the only thing that can clear `ok`, and it
      always does when it runs. */
  lemma ReconcilePasses(candidates: seq<seq<string>>, actual: seq<string>)
    requires |candidates| > 0
    ensures Passes(Reconcile(candidates, actual)) <==>
      exists j :: 0 <= j < |candidates| && ToSet(candidates[j]) == ToSet(actual)
    ensures Reconcile(candidates, actual).Mismatch? ==> !Reconcile(candidates, actual).report.ok
  {
  }

  /** The candidate order matters only for which match is reported: the
      first candidate that matches is chosen. */
  lemma FirstCandidateWins(candidates: seq<seq<string>>, actual: seq<string>)
    requires |candidates| > 0 && ToSet(candidates[0]) == ToSet(actual)
    ensures Reconcile(candidates, actual) == Matched(0)
  {
  }

  // ---- The candidate lists ----

  /** One expectation: the client and the server package lists the package
      scripts print for one flag combination. */
  datatype Expected = Expected(client: seq<string>, server: seq<string>)

  function Clients(es: seq<Expected>): (r: seq<seq<string>>)
    ensures |r| == |es| && forall i :: 0 <= i < |es| ==> r[i] == es[i].client
  {
    seq(|es|, i requires 0 <= i < |es| => es[i].client)
  }

  function Servers(es: seq<Expected>): (r: seq<seq<string>>)
    ensures |r| == |es| && forall i :: 0 <= i < |es| ==> r[i] == es[i].server
  {
    seq(|es|, i requires 0 <= i < |es| => es[i].server)
  }

  /** `bash_list` of sourcing the named package script (the first argument)
      and running `ci_linux_packages <family> <distro> <version> <variant>
      <ldap> '' <snmp>`: the stripped non-empty output lines, or
      `CalledProcessError` when the shell exits non-zero. The words are
      pasted into the command line unquoted, so an empty version is no
      argument at all and the later ones move one place to the left; the
      function stands for the whole shell call and includes that effect. */
  type LinuxPackages = (string, string, string, string, string, string, string) -> Result<seq<string>>

  /** `bash_list` of `ci_bsd_packages <pkgmgr> <variant> <snmp> <os>` */
  type BsdPackages = (string, string, string, string) -> Result<seq<string>>

  /** The Debian family has its own package script; every other Linux family
      uses the GitHub-runner one. */
  function PackageScript(family: string): (r: string)
    ensures r == "packages-debian.sh" <==> family == "debian"
    ensures r != "packages-debian.sh" ==> r == "packages-gh-debian.sh"
  {
    if family == "debian" then "packages-debian.sh" else "packages-gh-debian.sh"
  }

  /** `os_name.split("_", 1)[0]` and `os_name.split("_", 1)[1] if "_" in os_name else ""`. */
  function SplitOs(os: string): (r: (string, string))
    ensures '_' !in r.0
    ensures '_' in os ==> r.0 + "_" + r.1 == os
    ensures '_' !in os ==> r == (os, "")
  {
    var k := IndexOf(os, '_');
    if k == |os| then
      assert forall i :: 0 <= i < |os| ==> os[i] != '_';
      (os, "")
    else
      assert os == os[..k] + "_" + os[k + 1..];
      (os[..k], os[k + 1..])
  }

  /** The ldap switch of the `k`-th combination: `ON` for the first two. */
  function LdapSwitch(k: nat): string {
    if k < 2 then "ON" else "OFF"
  }

  /** The snmp switch of the `k`-th combination: `ON` for even `k`. */
  function SnmpSwitch(k: nat): string {
    if k % 2 == 0 then "ON" else "OFF"
  }

  /** The script calls of the `k`-th Linux combination, client first. */
  function LinuxCombo(pkgs: LinuxPackages, script: string, family: string, distro: string, version: string, k: nat)
    : (r: Result<Expected>)
    ensures r.Ok? <==>
      pkgs(script, family, distro, version, "client", LdapSwitch(k), SnmpSwitch(k)).Ok? &&
      pkgs(script, family, distro, version, "server", LdapSwitch(k), SnmpSwitch(k)).Ok?
    ensures r.Ok? ==> r.value == Expected(
      pkgs(script, family, distro, version, "client", LdapSwitch(k), SnmpSwitch(k)).value,
      pkgs(script, family, distro, version, "server", LdapSwitch(k), SnmpSwitch(k)).value)
  {
    var client :- pkgs(script, family, distro, version, "client", LdapSwitch(k), SnmpSwitch(k));
    var server :- pkgs(script, family, distro, version, "server", LdapSwitch(k), SnmpSwitch(k));
    Ok(Expected(client, server))
  }

  /** The four Linux expectations, ldap `ON`/`OFF` outermost and snmp
      `ON`/`OFF` innermost; the first failing script call raises. */
  function LinuxExpected(pkgs: LinuxPackages, family: string, os: string): (r: Result<seq<Expected>>)
    ensures r.Ok? <==> forall k :: 0 <= k < 4 ==>
      && pkgs(PackageScript(family), family, SplitOs(os).0, SplitOs(os).1, "client", LdapSwitch(k), SnmpSwitch(k)).Ok?
      && pkgs(PackageScript(family), family, SplitOs(os).0, SplitOs(os).1, "server", LdapSwitch(k), SnmpSwitch(k)).Ok?
    ensures r.Ok? ==> |r.value| == 4
    ensures r.Ok? ==> forall k :: 0 <= k < 4 ==>
      r.value[k] == Expected(
        pkgs(PackageScript(family), family, SplitOs(os).0, SplitOs(os).1, "client", LdapSwitch(k), SnmpSwitch(k)).value,
        pkgs(PackageScript(family), family, SplitOs(os).0, SplitOs(os).1, "server", LdapSwitch(k), SnmpSwitch(k)).value)
  {
    var script := PackageScript(family);
    var (distro, version) := SplitOs(os);
    var e0 :- LinuxCombo(pkgs, script, family, distro, version, 0);
    var e1 :- LinuxCombo(pkgs, script, family, distro, version, 1);
    var e2 :- LinuxCombo(pkgs, script, family, distro, version, 2);
    var e3 :- LinuxCombo(pkgs, script, family, distro, version, 3);
    Ok([e0, e1, e2, e3])
  }

  predicate IsSwitch(s: string) {
    s == "ON" || s == "OFF"
  }

  /** Every flag combination is tried exactly once. */
  lemma SwitchesCovered()
    ensures forall l, n :: IsSwitch(l) && IsSwitch(n) ==>
      exists k :: 0 <= k < 4 && LdapSwitch(k) == l && SnmpSwitch(k) == n
    ensures forall j, k :: 0 <= j < k < 4 ==> (LdapSwitch(j), SnmpSwitch(j)) != (LdapSwitch(k), SnmpSwitch(k))
  {
    forall l, n | IsSwitch(l) && IsSwitch(n)
      ensures exists k :: 0 <= k < 4 && LdapSwitch(k) == l && SnmpSwitch(k) == n
    {
      var k := (if l == "ON" then 0 else 2) + (if n == "ON" then 0 else 1);
      assert LdapSwitch(k) == l && SnmpSwitch(k) == n;
    }
  }

  /** The server expectation on BSD also allows the LDAP client package when
      the actual list already has it: `openldap-client` is appended only if
      it is in the actual list and not yet expected. */
  function LdapAppend(ldapPkg: Option<string>, actualServer: seq<string>, expected: seq<string>): (r: seq<string>)
    ensures ToSet(r) == ToSet(expected) + (if ldapPkg.Some? && ldapPkg.value in actualServer then {ldapPkg.value} else {})
    ensures |expected| <= |r| <= |expected| + 1
    ensures r[..|expected|] == expected
  {
    if ldapPkg.Some? && ldapPkg.value in actualServer && ldapPkg.value !in expected then
      expected + [ldapPkg.value]
    else expected
  }

  /** The script calls of the `k`-th BSD combination, client first, with
      the LDAP allowance applied to the server output. */
  function BsdCombo(pkgs: BsdPackages, ldapPkg: Option<string>, pkgmgr: string, os: string, actualServer: seq<string>, k: nat)
    : (r: Result<Expected>)
    ensures r.Ok? <==> pkgs(pkgmgr, "client", SnmpSwitch(k), os).Ok? && pkgs(pkgmgr, "server", SnmpSwitch(k), os).Ok?
    ensures r.Ok? ==> r.value == Expected(pkgs(pkgmgr, "client", SnmpSwitch(k), os).value,
      LdapAppend(ldapPkg, actualServer, pkgs(pkgmgr, "server", SnmpSwitch(k), os).value))
  {
    var client :- pkgs(pkgmgr, "client", SnmpSwitch(k), os);
    var server :- pkgs(pkgmgr, "server", SnmpSwitch(k), os);
    Ok(Expected(client, LdapAppend(ldapPkg, actualServer, server)))
  }

  /** The two BSD expectations, snmp `ON` then `OFF`; LDAP is not a switch
      there. The first failing script call raises. */
  function BsdExpected(pkgs: BsdPackages, ldapPkg: Option<string>, pkgmgr: string, os: string, actualServer: seq<string>)
    : (r: Result<seq<Expected>>)
    ensures r.Ok? <==> forall k :: 0 <= k < 2 ==>
      pkgs(pkgmgr, "client", SnmpSwitch(k), os).Ok? && pkgs(pkgmgr, "server", SnmpSwitch(k), os).Ok?
    ensures r.Ok? ==> |r.value| == 2
    ensures r.Ok? ==> forall k :: 0 <= k < 2 ==>
      r.value[k] == Expected(pkgs(pkgmgr, "client", SnmpSwitch(k), os).value,
                             LdapAppend(ldapPkg, actualServer, pkgs(pkgmgr, "server", SnmpSwitch(k), os).value))
  {
    var e0 :- BsdCombo(pkgs, ldapPkg, pkgmgr, os, actualServer, 0);
    var e1 :- BsdCombo(pkgs, ldapPkg, pkgmgr, os, actualServer, 1);
    Ok([e0, e1])
  }

  /** The LDAP allowance never rejects a server list the script's own
      output accepts, and it is what lets a server list with the LDAP
      package match a script output without it. */
  lemma LdapAllowance(ldapPkg: Option<string>, actualServer: seq<string>, expected: seq<string>)
    ensures ToSet(expected) == ToSet(actualServer) ==> ToSet(LdapAppend(ldapPkg, actualServer, expected)) == ToSet(actualServer)
    ensures ldapPkg.Some? && ldapPkg.value in actualServer && ToSet(expected) + {ldapPkg.value} == ToSet(actualServer) ==>
      ToSet(LdapAppend(ldapPkg, actualServer, expected)) == ToSet(actualServer)
    ensures ldapPkg.Some? && ldapPkg.value !in actualServer ==> LdapAppend(ldapPkg, actualServer, expected) == expected
  {
  }

  /** One packager's reconciliation: client and server lists are matched
      independently, each against its own column of the expectations. */
  function PackagerOk(es: seq<Expected>, actualClient: seq<string>, actualServer: seq<string>): (ok: bool)
    requires |es| > 0
    ensures ok <==>
      (exists j :: 0 <= j < |es| && ToSet(es[j].client) == ToSet(actualClient)) &&
      (exists j :: 0 <= j < |es| && ToSet(es[j].server) == ToSet(actualServer))
  {
    ReconcilePasses(Clients(es), actualClient);
    ReconcilePasses(Servers(es), actualServer);
    Passes(Reconcile(Clients(es), actualClient)) && Passes(Reconcile(Servers(es), actualServer))
  }
}
