/** The helpers of `ci/deps/check-deps.py` that look at names and workflow
    files: `normalize_token`, `find_install_steps` / `find_package_steps`,
    and the per-workflow check of the flags, environment variables and
    `--distro-family` a package-script invocation needs. Regular-expression
    matches on workflow text are parameters. */
module DepsWorkflow {

  import opened Text
  import opened Py

  // ---- normalize_token ----

  predicate IsTokenChar(c: char) {
    IsLower(c) || IsDigit(c)
  }

  /** `re.sub(r"[^a-z0-9]+", "", token.lower())`: lower-case, then keep
      only ASCII lower-case letters and digits. */
  function NormalizeToken(token: string): (r: string)
    ensures forall i :: 0 <= i < |r| ==> IsTokenChar(r[i])
    ensures |r| <= |token|
  {
    if |token| == 0 then ""
    else
      var c := ToLower(token[0]);
      (if IsTokenChar(c) then [c] else []) + NormalizeToken(token[1..])
  }

  /** Normalisation works character by character, so it distributes over
      concatenation. */
  lemma {:induction false} NormalizeAppend(a: string, b: string)
    ensures NormalizeToken(a + b) == NormalizeToken(a) + NormalizeToken(b)
    decreases |a|
  {
    if |a| > 0 {
      assert (a + b)[0] == a[0];
      assert (a + b)[1..] == a[1..] + b;
      NormalizeAppend(a[1..], b);
    } else {
      assert a + b == b;
    }
  }

  /** A string is its own normal form exactly when it already consists of
      lower-case letters and digits only. */
  lemma {:induction false} NormalizeFixedPoint(t: string)
    ensures NormalizeToken(t) == t <==> forall i :: 0 <= i < |t| ==> IsTokenChar(t[i])
    decreases |t|
  {
    if |t| > 0 {
      NormalizeFixedPoint(t[1..]);
      if IsTokenChar(t[0]) {
        assert ToLower(t[0]) == t[0];
        assert t == [t[0]] + t[1..];
        assert (forall i :: 0 <= i < |t| ==> IsTokenChar(t[i])) <==>
               (forall i :: 0 <= i < |t[1..]| ==> IsTokenChar(t[1..][i])) by {
          if forall i :: 0 <= i < |t[1..]| ==> IsTokenChar(t[1..][i]) {
            forall i | 0 <= i < |t| ensures IsTokenChar(t[i]) {
              if i > 0 { assert t[i] == t[1..][i - 1]; }
            }
          }
        }
      } else if IsTokenChar(ToLower(t[0])) {
        assert NormalizeToken(t)[0] != t[0];
      } else {
        assert |NormalizeToken(t)| <= |t[1..]| < |t|;
      }
    }
  }

  /** Normalising twice is normalising once. */
  lemma NormalizeIdempotent(t: string)
    ensures NormalizeToken(NormalizeToken(t)) == NormalizeToken(t)
  {
    NormalizeFixedPoint(NormalizeToken(t));
  }

  /** Letters are folded: two spellings that differ only in ASCII case
      normalise alike. */
  lemma {:induction false} NormalizeIgnoresCase(a: string, b: string)
    requires |a| == |b| && forall i :: 0 <= i < |a| ==> ToLower(a[i]) == ToLower(b[i])
    ensures NormalizeToken(a) == NormalizeToken(b)
    decreases |a|
  {
    if |a| > 0 {
      NormalizeIgnoresCase(a[1..], b[1..]);
    }
  }

  // ---- Finding package-script steps in a workflow ----

  /** What marks a step as relevant: `find_install_steps` looks for the
      GitHub Debian installer, `find_package_steps` for any package script
      under `ci/deps/`. */
  datatype StepKind = InstallStep | PackageStep

  predicate Wanted(kind: StepKind, run: string) {
    match kind
    case InstallStep => Contains(run, "install-gh-debian-packages.sh")
    case PackageStep => Contains(run, "ci/deps/") && Contains(run, "packages")
  }

  /** The `run` string of a step that is a mapping with a string `run`;
      a step without `run` counts as `""`. */
  function RunOf(step: Value): Option<string> {
    if !step.Dict? then None
    else
      match Lookup(step.entries, "run")
      case None => Some("")
      case Some(Str(s)) => Some(s)
      case Some(_) => None
  }

  /** The hits among one job's steps, in order. */
  function StepHits(kind: StepKind, steps: seq<Value>): (r: seq<string>)
    ensures forall h :: h in r ==> Wanted(kind, h)
    ensures forall i :: 0 <= i < |steps| && RunOf(steps[i]).Some? && Wanted(kind, RunOf(steps[i]).value) ==>
      RunOf(steps[i]).value in r
    ensures forall h :: h in r ==> exists i :: 0 <= i < |steps| && RunOf(steps[i]) == Some(h)
  {
    if |steps| == 0 then []
    else
      var rest := StepHits(kind, steps[1..]);
      assert forall i :: 1 <= i < |steps| ==> steps[i] == steps[1..][i - 1];
      var run := RunOf(steps[0]);
      if run.Some? && Wanted(kind, run.value) then [run.value] + rest else rest
  }

  /** `job.get("steps", [])` when it is a list; a job that is not a mapping
      has no `get` and raises. */
  function JobSteps(job: Value): (r: Result<seq<Value>>)
    ensures r.Ok? <==> job.Dict?
  {
    var steps :- Get(job, "steps", List([]));
    Ok(if steps.List? then steps.items else [])
  }

  /** The hits over the jobs, in order. */
  function JobHits(kind: StepKind, jobs: Entries): (r: Result<seq<string>>)
    ensures r.Ok? <==> forall i :: 0 <= i < |jobs| ==> jobs[i].1.Dict?
    ensures r.Ok? ==> forall h :: h in r.value ==> Wanted(kind, h)
  {
    if |jobs| == 0 then Ok([])
    else
      assert forall i :: 1 <= i < |jobs| ==> jobs[i] == jobs[1..][i - 1];
      var steps :- JobSteps(jobs[0].1);
      var rest :- JobHits(kind, jobs[1..]);
      Ok(StepHits(kind, steps) + rest)
  }

  /** `find_install_steps(workflow)` / `find_package_steps(workflow)` */
  function FindSteps(kind: StepKind, workflow: Entries): (r: Result<seq<string>>)
    ensures !(Lookup(workflow, "jobs").Some? && Lookup(workflow, "jobs").value.Dict?) ==> r == Ok([])
    ensures r.Ok? ==> forall h :: h in r.value ==> Wanted(kind, h)
  {
    var jobs := match Lookup(workflow, "jobs") case Some(j) => j case None => Dict([]);
    if !jobs.Dict? then Ok([]) else JobHits(kind, jobs.entries)
  }

  /** Every step of every job whose `run` is wanted is found. */
  lemma {:induction false} JobHitsComplete(kind: StepKind, jobs: Entries, i: nat, k: nat)
    requires JobHits(kind, jobs).Ok?
    requires i < |jobs| && k < |JobSteps(jobs[i].1).value|
    requires RunOf(JobSteps(jobs[i].1).value[k]).Some?
    requires Wanted(kind, RunOf(JobSteps(jobs[i].1).value[k]).value)
    ensures RunOf(JobSteps(jobs[i].1).value[k]).value in JobHits(kind, jobs).value
    decreases i
  {
    assert jobs[0].1.Dict?;
    var steps := JobSteps(jobs[0].1).value;
    var rest := JobHits(kind, jobs[1..]).value;
    var h := RunOf(JobSteps(jobs[i].1).value[k]).value;
    assert JobHits(kind, jobs).value == StepHits(kind, steps) + rest;
    if i == 0 {
      assert h in StepHits(kind, steps);
    } else {
      assert jobs[i] == jobs[1..][i - 1];
      JobHitsComplete(kind, jobs[1..], i - 1, k);
      assert h in rest;
    }
  }

  /** `parse_workflow_yaml`: a file that does not load, or whose root is not
      a mapping, reads as `{}`. */
  function ParseWorkflow(loaded: Option<Value>): (r: Entries)
    ensures loaded.Some? && loaded.value.Dict? ==> r == loaded.value.entries
    ensures !(loaded.Some? && loaded.value.Dict?) ==> r == []
  {
    match loaded
    case Some(Dict(es)) => es
    case _ => []
  }

  // ---- The workflow checks ----

  /** A workflow file as `main` sees it: its text, what `yaml.safe_load`
      produced (`None` when loading failed), and the group the
      `--distro-family` pattern captures in the text, if it matches. */
  datatype Workflow = Workflow(text: string, loaded: Option<Value>, distroFamily: Option<string>)

  /** The regular-expression part of the check, as parameters: which script
      path a run snippet names, and whether that script exists. */
  datatype ScriptLocator = ScriptLocator(scriptOf: string -> Option<string>, exists_: string -> bool)

  /** Every entry of `required` occurs in `text`; a non-string entry raises. */
  function AllMentioned(required: seq<Value>, text: string): (r: Result<bool>)
    ensures r == Ok(true) <==> forall i :: 0 <= i < |required| ==> InText(required[i], text) == Ok(true)
  {
    var rs := seq(|required|, i requires 0 <= i < |required| => InText(required[i], text));
    assert forall i :: 0 <= i < |required| ==> rs[i] == InText(required[i], text);
    Conjoin(rs)
  }

  /** `set(accepts.get("family", []))` */
  function AllowedFamilies(accepts: Value): Result<seq<Value>> {
    var allowedRaw :- Get(accepts, "family", List([]));
    SetOf(allowedRaw)
  }

  /** The `--distro-family` check: a family outside a non-empty `accepts.family`
      list, or absent from the client build tree, clears `ok`. */
  function FamilyAccepted(family: string, accepts: Value, clientBuild: Value): (r: Result<bool>)
    ensures r == Ok(true) <==>
      && AllowedFamilies(accepts).Ok?
      && (|AllowedFamilies(accepts).value| == 0 || Str(family) in AllowedFamilies(accepts).value)
      && In(family, clientBuild) == Ok(true)
    ensures (AllowedFamilies(accepts).Ok? && |AllowedFamilies(accepts).value| > 0 &&
             Str(family) !in AllowedFamilies(accepts).value) ==> r == Ok(false)
  {
    var allowed :- AllowedFamilies(accepts);
    if |allowed| > 0 && Str(family) !in allowed then Ok(false)
    else
      var known :- In(family, clientBuild);
      Ok(known)
  }

  /** One run snippet: a snippet that names no existing package script is
      skipped; otherwise its script's metadata from `deps-meta.yaml` decides
      which flags and environment variables the workflow text must mention. */
  function SnippetOk(loc: ScriptLocator, depMeta: Entries, clientBuild: Value, wf: Workflow, snippet: string): (r: Result<bool>)
    ensures loc.scriptOf(snippet).None? ==> r == Ok(true)
    ensures loc.scriptOf(snippet).Some? && !loc.exists_(loc.scriptOf(snippet).value) ==> r == Ok(true)
  {
    match loc.scriptOf(snippet)
    case None => Ok(true)
    case Some(path) =>
      if !loc.exists_(path) then Ok(true)
      else
        var scripts := GetOr(depMeta, "scripts", Dict([]));
        var meta :- Get(scripts, path, Dict([]));
        MetaOk(meta, clientBuild, wf)
  }

  /** The metadata of one existing script against one workflow file. */
  function MetaOk(meta: Value, clientBuild: Value, wf: Workflow): Result<bool> {
    var requiredFlags :- Get(meta, "requires_flags", List([]));
    var requiredEnv :- Get(meta, "requires_env", List([]));
    var accepts :- Get(meta, "accepts", Dict([]));
    ChecksOk(requiredFlags, requiredEnv, accepts, clientBuild, wf)
  }

  /** The flag loop, then the environment loop and the family check. */
  function ChecksOk(requiredFlags: Value, requiredEnv: Value, accepts: Value, clientBuild: Value, wf: Workflow): Result<bool> {
    var flags :- Iter(requiredFlags);
    var flagsOk :- AllMentioned(flags, wf.text);
    var restOk :- EnvAndFamilyOk(requiredFlags, requiredEnv, accepts, clientBuild, wf);
    Ok(flagsOk && restOk)
  }

  function EnvAndFamilyOk(requiredFlags: Value, requiredEnv: Value, accepts: Value, clientBuild: Value, wf: Workflow): Result<bool> {
    var envs :- Iter(requiredEnv);
    var envOk :- AllMentioned(envs, wf.text);
    var wantsFamily :- In("--distro-family", requiredFlags);
    if wantsFamily && wf.distroFamily.Some? then
      var familyOk :- FamilyAccepted(wf.distroFamily.value, accepts, clientBuild);
      Ok(envOk && familyOk)
    else Ok(envOk)
  }

  /** One workflow file: every package-script step is checked. */
  function WorkflowOk(loc: ScriptLocator, depMeta: Entries, clientBuild: Value, wf: Workflow): (r: Result<bool>)
    ensures FindSteps(PackageStep, ParseWorkflow(wf.loaded)) == Ok([]) ==> r == Ok(true)
  {
    var snippets :- FindSteps(PackageStep, ParseWorkflow(wf.loaded));
    var rs := seq(|snippets|, i requires 0 <= i < |snippets| => SnippetOk(loc, depMeta, clientBuild, wf, snippets[i]));
    assert |rs| == 0 ==> Conjoin(rs) == Ok(true);
    Conjoin(rs)
  }

  /** The workflow section of `main` over every workflow file. */
  function WorkflowsOk(loc: ScriptLocator, depMeta: Entries, clientBuild: Value, wfs: seq<Workflow>): (r: Result<bool>)
    ensures r == Ok(true) <==> forall i :: 0 <= i < |wfs| ==> WorkflowOk(loc, depMeta, clientBuild, wfs[i]) == Ok(true)
  {
    var rs := seq(|wfs|, i requires 0 <= i < |wfs| => WorkflowOk(loc, depMeta, clientBuild, wfs[i]));
    assert forall i :: 0 <= i < |wfs| ==> rs[i] == WorkflowOk(loc, depMeta, clientBuild, wfs[i]);
    Conjoin(rs)
  }

  /** A script whose metadata requires a flag the workflow text never
      mentions clears `ok`. */
  lemma MissingFlagFails(loc: ScriptLocator, depMeta: Entries, clientBuild: Value, wf: Workflow, snippet: string, flag: string)
    requires loc.scriptOf(snippet).Some? && loc.exists_(loc.scriptOf(snippet).value)
    requires SnippetOk(loc, depMeta, clientBuild, wf, snippet).Ok?
    requires !Contains(wf.text, flag)
    requires var path := loc.scriptOf(snippet).value;
             var scripts := GetOr(depMeta, "scripts", Dict([]));
             var meta := Get(scripts, path, Dict([])).value;
             Str(flag) in Iter(Get(meta, "requires_flags", List([])).value).value
    ensures SnippetOk(loc, depMeta, clientBuild, wf, snippet) == Ok(false)
  {
    var path := loc.scriptOf(snippet).value;
    var scripts := GetOr(depMeta, "scripts", Dict([]));
    var meta := Get(scripts, path, Dict([])).value;
    FlagsFail(Get(meta, "requires_flags", List([])).value, Get(meta, "requires_env", List([])).value,
              Get(meta, "accepts", Dict([])).value, clientBuild, wf, flag);
  }

  lemma FlagsFail(requiredFlags: Value, requiredEnv: Value, accepts: Value, clientBuild: Value, wf: Workflow, flag: string)
    requires ChecksOk(requiredFlags, requiredEnv, accepts, clientBuild, wf).Ok?
    requires Iter(requiredFlags).Ok? && Str(flag) in Iter(requiredFlags).value
    requires !Contains(wf.text, flag)
    ensures ChecksOk(requiredFlags, requiredEnv, accepts, clientBuild, wf) == Ok(false)
  {
    var flags := Iter(requiredFlags).value;
    var i :| 0 <= i < |flags| && flags[i] == Str(flag);
    assert InText(flags[i], wf.text) == Ok(false);
    assert AllMentioned(flags, wf.text) == Ok(false);
  }

  // ---- The two search patterns, as written and as intended ----

  /** Neither a backslash nor the letter `s`. In the raw string
      `r"[^\\s]"` the class holds an escaped backslash and the letter `s`,
      so these are the characters it admits, whitespace included. */
  predicate NotBackslashOrS(c: char) {
    c != '\\' && c != 's'
  }

  /** `packages` occurs in `m` at position `p`. */
  predicate PackagesAt(m: string, p: nat) {
    p + 8 <= |m| && m[p..p + 8] == "packages"
  }

  /** What the script pattern as written, `r"(ci/deps/[^\\s]+packages[^\\s]+\\.sh)"`,
      matches: `ci/deps/`, a non-empty run of `[^\\s]`, `packages`, another
      non-empty run, then a literal backslash, any character but a newline,
      and `sh`. */
  predicate AsWrittenScript(m: string) {
    && |m| >= 22
    && m[..8] == "ci/deps/"
    && m[|m| - 4] == '\\' && m[|m| - 3] != '\n' && m[|m| - 2..] == "sh"
    && exists p: nat :: 8 < p && p + 8 < |m| - 4 && PackagesAt(m, p) &&
         (forall k :: 8 <= k < p ==> NotBackslashOrS(m[k])) &&
         (forall k :: p + 8 <= k < |m| - 4 ==> NotBackslashOrS(m[k]))
  }

  /** A locator that reports only what the pattern as written can match, as
      a substring of the snippet. */
  ghost predicate LocatesAsWritten(loc: ScriptLocator) {
    forall snippet :: loc.scriptOf(snippet).Some? ==>
      AsWrittenScript(loc.scriptOf(snippet).value) && Contains(snippet, loc.scriptOf(snippet).value)
  }

  /** What the `--distro-family` pattern as written, `r"--distro-family\\s+(\\S+)"`,
      can capture: it needs a literal backslash in the text, so a text
      without one yields no family. */
  predicate FamilyAsWritten(wf: Workflow) {
    wf.distroFamily.Some? ==> '\\' in wf.text
  }

  /** As written, a run snippet without a backslash never names a script,
      so the flag, environment and family checks never run: every workflow
      whose steps are found passes, whatever flags its scripts require. */
  lemma AsWrittenChecksNothing(loc: ScriptLocator, depMeta: Entries, clientBuild: Value, wf: Workflow)
    requires LocatesAsWritten(loc)
    requires FindSteps(PackageStep, ParseWorkflow(wf.loaded)).Ok?
    requires forall h :: h in FindSteps(PackageStep, ParseWorkflow(wf.loaded)).value ==> '\\' !in h
    ensures WorkflowOk(loc, depMeta, clientBuild, wf) == Ok(true)
  {
    var snippets := FindSteps(PackageStep, ParseWorkflow(wf.loaded)).value;
    var rs := seq(|snippets|, i requires 0 <= i < |snippets| => SnippetOk(loc, depMeta, clientBuild, wf, snippets[i]));
    forall i | 0 <= i < |snippets|
      ensures rs[i] == Ok(true)
    {
      var h := snippets[i];
      assert h in snippets;
      if loc.scriptOf(h).Some? {
        var m := loc.scriptOf(h).value;
        assert m[|m| - 4] == '\\';
        ContainsChar(h, m, '\\');
      }
    }
  }

  /** As written, the family check is dead for a workflow text without a
      backslash: the environment loop alone decides. */
  lemma AsWrittenSkipsFamily(requiredFlags: Value, requiredEnv: Value, accepts: Value, clientBuild: Value, wf: Workflow)
    requires FamilyAsWritten(wf)
    requires '\\' !in wf.text
    requires Iter(requiredEnv).Ok? && In("--distro-family", requiredFlags).Ok?
    ensures EnvAndFamilyOk(requiredFlags, requiredEnv, accepts, clientBuild, wf) ==
      AllMentioned(Iter(requiredEnv).value, wf.text)
  {
  }

  /** What the script pattern is evidently meant to match: a path with no
      whitespace that starts with `ci/deps/`, ends with `.sh` and has
      `packages` in between. The single-backslash reading
      `ci/deps/\S+packages\S+\.sh` would still demand a character between
      `packages` and `.sh`, which the repository's `install-*-packages.sh`
      scripts lack; this is the reading `ci/deps/\S*packages\S*\.sh`. */
  predicate IntendedScript(m: string) {
    && |m| >= 19
    && m[..8] == "ci/deps/" && m[|m| - 3..] == ".sh"
    && (forall k :: 0 <= k < |m| ==> !IsPySpace(m[k]))
    && exists p: nat :: 8 <= p && p + 8 <= |m| - 3 && PackagesAt(m, p)
  }

  /** A locator that finds such a path whenever the snippet has one, and
      reports nothing else. */
  ghost predicate LocatesIntended(loc: ScriptLocator) {
    forall snippet ::
      && (loc.scriptOf(snippet).Some? ==>
            IntendedScript(loc.scriptOf(snippet).value) && Contains(snippet, loc.scriptOf(snippet).value))
      && ((exists i, j :: 0 <= i <= j <= |snippet| && IntendedScript(snippet[i..j])) ==> loc.scriptOf(snippet).Some?)
  }

  /** With the intended pattern, a step that runs a package script is
      checked; together with `MissingFlagFails` a missing required flag then
      clears `ok`. */
  lemma IntendedLocates(loc: ScriptLocator, snippet: string, i: nat, j: nat)
    requires LocatesIntended(loc)
    requires i <= j <= |snippet| && IntendedScript(snippet[i..j])
    ensures loc.scriptOf(snippet).Some?
    ensures IntendedScript(loc.scriptOf(snippet).value)
  {
  }

  /** The path the workflows actually run is matched by the intended
      pattern and not by the pattern as written. */
  lemma InstallerPathMissedAsWritten()
    ensures IntendedScript("ci/deps/install-gh-debian-packages.sh")
    ensures !AsWrittenScript("ci/deps/install-gh-debian-packages.sh")
  {
    InstallerPathIntended();
    var m := "ci/deps/install-gh-debian-packages.sh";
    assert m[|m| - 4] == 's';
  }

  lemma InstallerPathIntended()
    ensures IntendedScript("ci/deps/install-gh-debian-packages.sh")
  {
    var m := "ci/deps/install-gh-debian-packages.sh";
    assert |m| == 37;
    assert m[..8] == "ci/deps/" && m[34..] == ".sh";
    assert PackagesAt(m, 26);
    forall k | 0 <= k < |m|
      ensures !IsPySpace(m[k])
    {
      assert m[k] in "abcdeghiklnpstuv-/.";
    }
  }

  /** `--distro-family\s+(\S+)`, the family pattern as evidently meant,
      matches at `i`: the option, at least one whitespace character, then a
      non-whitespace one. */
  predicate FamilyMatchAt(text: string, i: nat) {
    && i + 16 <= |text|
    && text[i..i + 15] == "--distro-family"
    && IsPySpace(text[i + 15])
    && HasWord(text[i + 15..])
  }

  /** `re.search` of that pattern from position `i` on: the group at the
      leftmost match. Whitespace cannot start `\S+`, so `\s+` takes the
      whole run of it, and the greedy `\S+` then takes the whole word:
      the group is `split()[0]` of the text after the option. */
  function FamilySearch(text: string, i: nat): (r: Option<string>)
    requires i <= |text|
    ensures r.Some? <==> exists k :: i <= k && FamilyMatchAt(text, k)
    ensures r.Some? ==> exists k :: (i <= k && FamilyMatchAt(text, k) && r.value == FirstWord(text[k + 15..]) &&
      forall k' :: i <= k' < k ==> !FamilyMatchAt(text, k'))
    decreases |text| - i
  {
    if i + 16 > |text| then None
    else if FamilyMatchAt(text, i) then Some(FirstWord(text[i + 15..]))
    else
      var r := FamilySearch(text, i + 1);
      assert forall k :: i <= k && FamilyMatchAt(text, k) ==> i + 1 <= k;
      r
  }

  /** The family the intended pattern captures in a workflow text. */
  function IntendedFamily(text: string): (r: Option<string>)
    ensures r.Some? <==> exists k :: FamilyMatchAt(text, k)
  {
    FamilySearch(text, 0)
  }

  /** `f` is a whole word of `text` at `j`, separated from an occurrence of
      the option at `i` by whitespace only. */
  predicate FamilyWordAt(text: string, i: nat, j: nat, f: string) {
    && i + 15 < j && j + |f| <= |text|
    && text[i..i + 15] == "--distro-family"
    && (forall m :: i + 15 <= m < j ==> IsPySpace(text[m]))
    && text[j..j + |f|] == f
    && (j + |f| == |text| || IsPySpace(text[j + |f|]))
  }

  /** At a match, the group is a whole word standing after the option and
      whitespace only. */
  lemma FamilyCaptureAt(text: string, i: nat) returns (j: nat)
    requires FamilyMatchAt(text, i)
    ensures FamilyWordAt(text, i, j, FirstWord(text[i + 15..]))
  {
    var f := FirstWord(text[i + 15..]);
    var rest := text[i + 15..];
    var p := FirstWordPlace(rest);
    assert p > 0 by { assert IsPySpace(rest[0]); }
    j := i + 15 + p;
    assert text[j..j + |f|] == rest[p..p + |f|];
    assert forall m :: i + 15 <= m < j ==> text[m] == rest[m - i - 15];
    assert j + |f| < |text| ==> text[j + |f|] == rest[p + |f|];
  }

  /** What the intended pattern captures is a non-empty word without
      whitespace, standing after the leftmost occurrence of the option
      that is followed by whitespace and a word. */
  lemma IntendedFamilyWord(text: string)
    requires IntendedFamily(text).Some?
    ensures var f := IntendedFamily(text).value;
      && |f| > 0 && (forall m :: 0 <= m < |f| ==> !IsPySpace(f[m]))
      && exists i: nat, j: nat :: FamilyWordAt(text, i, j, f) && forall k :: 0 <= k < i ==> !FamilyMatchAt(text, k)
  {
    var f := IntendedFamily(text).value;
    var i: nat :| FamilyMatchAt(text, i) && f == FirstWord(text[i + 15..]) &&
      forall k :: 0 <= k < i ==> !FamilyMatchAt(text, k);
    var j := FamilyCaptureAt(text, i);
  }

  /** The option as the workflows write it matches the intended pattern,
      which captures `debian`. */
  lemma DebianFamilyIntended()
    ensures IntendedFamily("--distro-family debian") == Some("debian")
  {
    DebianMatch();
  }

  lemma DebianMatch()
    ensures FamilyMatchAt("--distro-family debian", 0)
    ensures FirstWord("--distro-family debian"[15..]) == "debian"
  {
    var t := "--distro-family debian";
    assert t[..15] == "--distro-family";
    assert t[15..] == " debian";
    DebianWord();
  }

  /** `" debian".split()[0]` is `debian`. */
  lemma DebianWord()
    ensures HasWord(" debian") && FirstWord(" debian") == "debian"
  {
    assert " debian"[1..] == "debian";
    assert TrimLeft(" debian") == TrimLeft("debian") == "debian";
    assert "debian"[1..] == "ebian" && "ebian"[1..] == "bian" && "bian"[1..] == "ian";
    assert "ian"[1..] == "an" && "an"[1..] == "n" && "n"[1..] == "";
    assert WordLength("n") == 1;
    assert WordLength("an") == 2;
    assert WordLength("ian") == 3;
    assert WordLength("bian") == 4;
    assert WordLength("ebian") == 5;
    assert WordLength("debian") == 6;
  }

  /** Under the intended pattern the family check does run on that text:
      a script requiring `--distro-family` whose `accepts.family` leaves
      out `debian` fails the workflow. */
  lemma DebianFamilyChecked(requiredFlags: Value, requiredEnv: Value, accepts: Value, clientBuild: Value, wf: Workflow)
    requires wf.text == "--distro-family debian" && wf.distroFamily == IntendedFamily(wf.text)
    requires EnvAndFamilyOk(requiredFlags, requiredEnv, accepts, clientBuild, wf).Ok?
    requires In("--distro-family", requiredFlags) == Ok(true)
    requires AllowedFamilies(accepts).Ok? && |AllowedFamilies(accepts).value| > 0
    requires Str("debian") !in AllowedFamilies(accepts).value
    ensures EnvAndFamilyOk(requiredFlags, requiredEnv, accepts, clientBuild, wf) == Ok(false)
  {
    DebianFamilyIntended();
    UnsupportedFamilyFails(requiredFlags, requiredEnv, accepts, clientBuild, wf);
  }

  /** The same text has no backslash, so the pattern as written captures
      no family in it: the family check never runs for it. */
  lemma DebianFamilyMissedAsWritten(wf: Workflow)
    requires wf.text == "--distro-family debian"
    requires FamilyAsWritten(wf)
    ensures wf.distroFamily.None?
  {
    assert '\\' !in wf.text;
  }

  /** With the intended family pattern, a family outside a non-empty
      `accepts.family` list clears `ok` whenever the script requires
      `--distro-family`. */
  lemma UnsupportedFamilyFails(requiredFlags: Value, requiredEnv: Value, accepts: Value, clientBuild: Value, wf: Workflow)
    requires EnvAndFamilyOk(requiredFlags, requiredEnv, accepts, clientBuild, wf).Ok?
    requires In("--distro-family", requiredFlags) == Ok(true)
    requires wf.distroFamily.Some?
    requires AllowedFamilies(accepts).Ok? && |AllowedFamilies(accepts).value| > 0
    requires Str(wf.distroFamily.value) !in AllowedFamilies(accepts).value
    ensures EnvAndFamilyOk(requiredFlags, requiredEnv, accepts, clientBuild, wf) == Ok(false)
  {
  }
}
