/** `include/xymon_pcre.h`: the PCRE1-style shim over PCRE2 that the C code
    calls. The regex engine itself is not part of this model: what
    `pcre2_match` reports for one call is a parameter (`Match`). Modelled
    are the two bounds-checked copies: the offsets `pcre_exec` moves from
    PCRE2's vector into the caller's `int` vector, and the substring
    `pcre_copy_substring` moves into the caller's buffer. C `int` is 32 bits
    wide; a null pointer is `None`. */
module Pcre {

  import opened Py

  const IntMax: int := 0x7fff_ffff

  /** `PCRE_ERROR_NOMATCH`, and PCRE2's own no-match code. Both are -1. */
  const NoMatch: int := -1
  const Pcre2NoMatch: int := -1

  /** One `pcre2_match` call: its return code and the offset pairs
      (`PCRE2_SIZE`, unsigned) of its match data. */
  datatype Match = Match(rc: int, offsets: seq<nat>)

  /** What `pcre2_match` guarantees: a non-negative code `rc` comes with at
      least `rc` offset pairs. */
  predicate MatchValid(m: Match) {
    m.rc >= 0 ==> 2 * m.rc <= |m.offsets|
  }

  // ---- pcre_exec: the ovector copy ----

  /** `min(rc * 2, ovecsize)`, the number of entries copied. */
  function CopyCount(rc: int, ovecsize: int): (n: int)
    ensures n <= ovecsize && n <= 2 * rc
    ensures n == ovecsize || n == 2 * rc
  {
    if rc * 2 > ovecsize then ovecsize else rc * 2
  }

  /** The index of the first of the first `n` offsets too large for an
      `int`, or `n` when they all fit. */
  function FirstTooLarge(offsets: seq<nat>, n: nat): (k: nat)
    requires n <= |offsets|
    ensures k <= n
    ensures forall i :: 0 <= i < k ==> offsets[i] <= IntMax
    ensures k < n ==> offsets[k] > IntMax
  {
    if n == 0 then 0
    else
      var k := FirstTooLarge(offsets, n - 1);
      if k < n - 1 then k else if offsets[n - 1] > IntMax then n - 1 else n
  }

  /** The caller's vector after its first `k` entries took the offsets. */
  function Overwrite(ovector: seq<int>, offsets: seq<nat>, k: nat): (r: seq<int>)
    requires k <= |ovector| && k <= |offsets|
    ensures |r| == |ovector|
    ensures forall i :: 0 <= i < k ==> r[i] == offsets[i]
    ensures forall i :: k <= i < |r| ==> r[i] == ovector[i]
  {
    seq(|ovector|, i requires 0 <= i < |ovector| => if i < k then offsets[i] as int else ovector[i])
  }

  /** One more iteration of the copy loop writes one more offset. */
  lemma OverwriteStep(ovector: seq<int>, offsets: seq<nat>, k: nat)
    requires k < |ovector| && k < |offsets|
    ensures Overwrite(ovector, offsets, k)[k := offsets[k]] == Overwrite(ovector, offsets, k + 1)
  {
  }

  /** Whether `pcre_exec` reaches the copy loop. */
  predicate Copies(m: Match, ovector: Option<seq<int>>, ovecsize: int) {
    m.rc >= 0 && ovector.Some? && ovecsize > 0
  }

  /** `pcre_exec` with the code, subject and match data present: the return
      code and the caller's vector afterwards. An offset beyond `INT_MAX`
      stops the copy where it stands and turns the result into no match. */
  function ExecAfterMatch(m: Match, ovector: Option<seq<int>>, ovecsize: int): (r: (int, Option<seq<int>>))
    requires MatchValid(m)
    requires ovector.Some? ==> ovecsize <= |ovector.value|
    ensures r.1.Some? <==> ovector.Some?
    ensures !Copies(m, ovector, ovecsize) ==> r.1 == ovector && r.0 == (if m.rc == Pcre2NoMatch then NoMatch else m.rc)
    ensures Copies(m, ovector, ovecsize) ==>
      var n := CopyCount(m.rc, ovecsize);
      0 <= n <= ovecsize && n <= |m.offsets| &&
      |r.1.value| == |ovector.value| &&
      (forall i :: n <= i < |r.1.value| ==> r.1.value[i] == ovector.value[i]) &&
      (r.0 == m.rc <==> forall i :: 0 <= i < n ==> m.offsets[i] <= IntMax) &&
      (r.0 == m.rc ==> forall i :: 0 <= i < n ==> r.1.value[i] == m.offsets[i]) &&
      (r.0 != m.rc ==> r.0 == NoMatch) &&
      (r.0 != m.rc ==>
         exists k :: (0 <= k < n && m.offsets[k] > IntMax &&
           (forall i :: 0 <= i < k ==> m.offsets[i] <= IntMax && r.1.value[i] == m.offsets[i]) &&
           (forall i :: k <= i < |r.1.value| ==> r.1.value[i] == ovector.value[i])))
  {
    if Copies(m, ovector, ovecsize) then
      var n := CopyCount(m.rc, ovecsize);
      var k := FirstTooLarge(m.offsets, n);
      var out := Overwrite(ovector.value, m.offsets, k);
      if k < n then (NoMatch, Some(out))
      else (if m.rc == Pcre2NoMatch then NoMatch else m.rc, Some(out))
    else
      (if m.rc == Pcre2NoMatch then NoMatch else m.rc, ovector)
  }

  /** `pcre_exec(code, extra, subject, length, startoffset, options,
      ovector, ovecsize)`: a null code or subject, or match data that could
      not be created, is no match and leaves the vector alone. The copy is
      the loop of the source, entry by entry. */
  method Exec(codePresent: bool, subjectPresent: bool, mdataCreated: bool, m: Match,
              ovector: Option<seq<int>>, ovecsize: int) returns (rc: int, out: Option<seq<int>>)
    requires MatchValid(m)
    requires ovector.Some? ==> ovecsize <= |ovector.value|
    ensures !(codePresent && subjectPresent && mdataCreated) ==> rc == NoMatch && out == ovector
    ensures codePresent && subjectPresent && mdataCreated ==> (rc, out) == ExecAfterMatch(m, ovector, ovecsize)
  {
    if !codePresent || !subjectPresent {
      return NoMatch, ovector;
    }
    if !mdataCreated {
      return NoMatch, ovector;
    }
    out := ovector;
    if m.rc >= 0 && ovector.Some? && ovecsize > 0 {
      var copycount := m.rc * 2;
      if copycount > ovecsize {
        copycount := ovecsize;
      }
      var stopped, v := CopyOffsets(ovector.value, m.offsets, copycount);
      if stopped {
        return NoMatch, Some(v);
      }
      out := Some(v);
    }
    rc := if m.rc == Pcre2NoMatch then NoMatch else m.rc;
  }

  /** The copy loop of `pcre_exec`: offsets go into the caller's vector one
      by one until one does not fit an `int`, which stops the loop. */
  method CopyOffsets(ovector: seq<int>, offsets: seq<nat>, copycount: nat) returns (stopped: bool, v: seq<int>)
    requires copycount <= |ovector| && copycount <= |offsets|
    ensures stopped <==> FirstTooLarge(offsets, copycount) < copycount
    ensures v == Overwrite(ovector, offsets, FirstTooLarge(offsets, copycount))
  {
    v := ovector;
    var i := 0;
    while i < copycount
      invariant 0 <= i <= copycount
      invariant FirstTooLarge(offsets, i) == i
      invariant v == Overwrite(ovector, offsets, i)
    {
      if offsets[i] > IntMax {
        FirstTooLargeStops(offsets, i, copycount);
        return true, v;
      }
      OverwriteStep(ovector, offsets, i);
      v := v[i := offsets[i]];
      i := i + 1;
    }
    return false, v;
  }

  /** The first oversized offset below `n` is found again below any larger bound. */
  lemma {:induction false} FirstTooLargeStops(offsets: seq<nat>, k: nat, n: nat)
    requires k < n <= |offsets|
    requires FirstTooLarge(offsets, k) == k && offsets[k] > IntMax
    ensures FirstTooLarge(offsets, n) == k
    decreases n
  {
    if n > k + 1 {
      FirstTooLargeStops(offsets, k, n - 1);
    }
  }

  // ---- The count pcre_exec returns after a truncated copy ----

  /** The shim returns PCRE2's count even when the vector held fewer pairs
      than that: with a two-entry vector and a two-pair match, the usual
      `pcre_copy_substring(subject, ovector, rc, 1, ...)` reads entries 2
      and 3, past the vector's end. */
  lemma ExecCountOverstates()
    ensures ExecAfterMatch(Match(2, [0, 4, 1, 3]), Some([-1, -1]), 2) == (2, Some([0, 4]))
    ensures !CopyInBounds(Some("abcd"), Some([0, 4]), 2, 1, Some("0123456789"), 10)
  {
    assert FirstTooLarge([0, 4, 1, 3], 2) == 2 by {
      assert FirstTooLarge([0, 4, 1, 3], 1) == 1;
    }
    var out := Overwrite([-1, -1], [0, 4, 1, 3], 2);
    assert out[0] == 0 && out[1] == 4;
    assert out == [0, 4];
  }

  /** The PCRE1 contract the shim stands in for: when the vector is too
      small for every pair, the return is 0, so no pair beyond the copied
      ones is ever asked for. */
  function ExecAfterMatchPcre1(m: Match, ovector: Option<seq<int>>, ovecsize: int): (r: (int, Option<seq<int>>))
    requires MatchValid(m)
    requires ovector.Some? ==> ovecsize <= |ovector.value|
    ensures r.1 == ExecAfterMatch(m, ovector, ovecsize).1
    ensures Copies(m, ovector, ovecsize) && r.0 > 0 ==>
      forall n :: 0 <= n < r.0 ==> 2 * n + 1 < CopyCount(m.rc, ovecsize) && r.1.value[2 * n] == m.offsets[2 * n]
  {
    var r := ExecAfterMatch(m, ovector, ovecsize);
    if Copies(m, ovector, ovecsize) && r.0 == m.rc && 2 * m.rc > ovecsize then (0, r.1) else r
  }

  /** Under the PCRE1 contract the returned count keeps every substring
      copy inside the vector. */
  lemma Pcre1CountInBounds(m: Match, ovector: Option<seq<int>>, ovecsize: int, subject: Option<string>,
                           stringnumber: int, buffer: Option<seq<char>>, buffersize: int)
    requires MatchValid(m)
    requires ovector.Some? ==> ovecsize <= |ovector.value|
    requires Copies(m, ovector, ovecsize)
    requires buffer.Some? ==> buffersize <= |buffer.value|
    requires subject.Some?
    requires forall i :: 0 <= i < |m.offsets| ==> m.offsets[i] <= |subject.value|
    ensures var r := ExecAfterMatchPcre1(m, ovector, ovecsize);
      CopyInBounds(subject, r.1, r.0, stringnumber, buffer, buffersize)
  {
    var r := ExecAfterMatchPcre1(m, ovector, ovecsize);
    if 0 <= stringnumber < r.0 {
      assert 2 * stringnumber + 1 < CopyCount(m.rc, ovecsize);
      assert r.1.value[2 * stringnumber + 1] == m.offsets[2 * stringnumber + 1];
    }
  }

  // ---- pcre_copy_substring ----

  /** `pcre_copy_substring`'s reads stay inside the caller's arrays once
      its checks pass: the vector holds pair `stringnumber` and the pair
      lies inside the subject. The C code assumes this of its caller. */
  predicate CopyInBounds(subject: Option<string>, ovector: Option<seq<int>>, stringcount: int, stringnumber: int,
                         buffer: Option<seq<char>>, buffersize: int)
  {
    (buffer.Some? ==> buffersize <= |buffer.value|) &&
    (subject.Some? && ovector.Some? && buffer.Some? && buffersize > 0 && 0 <= stringnumber < stringcount ==>
      2 * stringnumber + 1 < |ovector.value| &&
      (0 <= ovector.value[2 * stringnumber] <= ovector.value[2 * stringnumber + 1] ==>
        ovector.value[2 * stringnumber + 1] <= |subject.value|))
  }

  /** The guards of `pcre_copy_substring`, in the order it tests them. */
  predicate CopyRefused(subject: Option<string>, ovector: Option<seq<int>>, stringcount: int, stringnumber: int,
                        buffer: Option<seq<char>>, buffersize: int)
    requires CopyInBounds(subject, ovector, stringcount, stringnumber, buffer, buffersize)
  {
    subject.None? || ovector.None? || buffer.None? || buffersize <= 0 ||
    stringnumber < 0 || stringnumber >= stringcount ||
    ovector.value[2 * stringnumber] < 0 ||
    ovector.value[2 * stringnumber + 1] < ovector.value[2 * stringnumber] ||
    ovector.value[2 * stringnumber + 1] - ovector.value[2 * stringnumber] >= buffersize
  }

  /** The return code and the caller's buffer afterwards (`None` stays `None`). */
  datatype Copy = Copy(rc: int, buffer: Option<seq<char>>)

  /** `pcre_copy_substring(subject, ovector, stringcount, stringnumber,
      buffer, buffersize)`: -1 when a check fails, with the buffer left
      alone; otherwise the substring's length, its bytes at the head of the
      buffer and a terminating NUL after them. */
  function CopySubstring(subject: Option<string>, ovector: Option<seq<int>>, stringcount: int, stringnumber: int,
                         buffer: Option<seq<char>>, buffersize: int): (r: Copy)
    requires CopyInBounds(subject, ovector, stringcount, stringnumber, buffer, buffersize)
    ensures r.rc == -1 <==> CopyRefused(subject, ovector, stringcount, stringnumber, buffer, buffersize)
    ensures r.rc == -1 ==> r.buffer == buffer
    ensures r.rc != -1 ==> 0 <= r.rc < buffersize
    ensures r.rc != -1 ==>
      var start := ovector.value[2 * stringnumber];
      var end := ovector.value[2 * stringnumber + 1];
      r.rc == end - start &&
      r.buffer.Some? && |r.buffer.value| == |buffer.value| &&
      r.buffer.value[..r.rc] == subject.value[start..end] &&
      r.buffer.value[r.rc] == '\0' &&
      r.buffer.value[r.rc + 1..] == buffer.value[r.rc + 1..]
  {
    if subject.None? || ovector.None? || buffer.None? || buffersize <= 0 then Copy(-1, buffer)
    else if stringnumber < 0 || stringnumber >= stringcount then Copy(-1, buffer)
    else
      var start := ovector.value[2 * stringnumber];
      var end := ovector.value[2 * stringnumber + 1];
      if start < 0 || end < start then Copy(-1, buffer)
      else
        var len := end - start;
        if len >= buffersize then Copy(-1, buffer)
        else
          var b := buffer.value;
          Copy(len, Some(subject.value[start..end] + ['\0'] + b[len + 1..]))
  }

  /** The C string a buffer holds: everything before its first NUL. */
  function CString(b: seq<char>): (r: seq<char>)
    ensures '\0' !in r
    ensures |r| <= |b|
    ensures r == b[..|r|]
    ensures |r| < |b| ==> b[|r|] == '\0'
  {
    if |b| == 0 || b[0] == '\0' then [] else [b[0]] + CString(b[1..])
  }

  lemma {:induction false} CStringOfTerminated(s: seq<char>, rest: seq<char>)
    requires '\0' !in s
    ensures CString(s + ['\0'] + rest) == s
    decreases |s|
  {
    if |s| > 0 {
      assert (s + ['\0'] + rest)[1..] == s[1..] + ['\0'] + rest;
      CStringOfTerminated(s[1..], rest);
    }
  }

  /** Reading the buffer back as a C string gives exactly the matched
      substring, when the subject holds no NUL there. */
  lemma CopyReadsBack(subject: Option<string>, ovector: Option<seq<int>>, stringcount: int, stringnumber: int,
                      buffer: Option<seq<char>>, buffersize: int)
    requires CopyInBounds(subject, ovector, stringcount, stringnumber, buffer, buffersize)
    requires CopySubstring(subject, ovector, stringcount, stringnumber, buffer, buffersize).rc != -1
    requires '\0' !in subject.value
    ensures var r := CopySubstring(subject, ovector, stringcount, stringnumber, buffer, buffersize);
      CString(r.buffer.value) == subject.value[ovector.value[2 * stringnumber]..ovector.value[2 * stringnumber + 1]]
  {
    var r := CopySubstring(subject, ovector, stringcount, stringnumber, buffer, buffersize);
    var start := ovector.value[2 * stringnumber];
    var end := ovector.value[2 * stringnumber + 1];
    var sub := subject.value[start..end];
    assert '\0' !in sub by {
      forall i | 0 <= i < |sub| ensures sub[i] != '\0' {
        assert sub[i] == subject.value[start + i];
      }
    }
    assert r.buffer.value == sub + ['\0'] + buffer.value[r.rc + 1..];
    CStringOfTerminated(sub, buffer.value[r.rc + 1..]);
  }
}
