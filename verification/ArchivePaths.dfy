/**
 Normalisation of archive paths in the browser.

 Strings are sequences of UTF-16 code units, as in the source language.
 */
module ArchivePaths {
  import opened Wrappers

  type Unit = x: int | 0 <= x < 0x1_0000
  type JsString = seq<Unit>

  const SLASH: Unit := 0x2f
  const BACKSLASH: Unit := 0x5c
  const DOT: Unit := 0x2e
  const NUL: Unit := 0
  const MAX_PATH_CHARS: nat := 512
  const MAX_DEPTH: nat := 50

  datatype PathError = InvalidPath | TooDeep | TooLong

  // ---------- the string operations the code chains ----------

  /** Every backslash becomes a slash. */
  function Slashed(s: JsString): (r: JsString)
    ensures |r| == |s|
  {
    seq(|s|, i requires 0 <= i < |s| => if s[i] == BACKSLASH then SLASH else s[i])
  }

  function StripLeading(s: JsString): JsString {
    if s != [] && s[0] == SLASH then StripLeading(s[1..]) else s
  }

  /** Runs of slashes shrink to one. */
  function Collapse(s: JsString): JsString {
    if |s| < 2 then s
    else if s[0] == SLASH && s[1] == SLASH then Collapse(s[1..])
    else [s[0]] + Collapse(s[1..])
  }

  function Split(s: JsString): (parts: seq<JsString>)
    ensures parts != []
  {
    if s == [] then [[]]
    else if s[0] == SLASH then [[]] + Split(s[1..])
    else
      var rest := Split(s[1..]);
      [[s[0]] + rest[0]] + rest[1..]
  }

  function Join(parts: seq<JsString>): JsString {
    if parts == [] then []
    else if |parts| == 1 then parts[0]
    else parts[0] + [SLASH] + Join(parts[1..])
  }

  /** The segments that are neither empty nor a single dot. */
  function KeepReal(parts: seq<JsString>): seq<JsString> {
    if parts == [] then []
    else (if parts[0] != [] && parts[0] != [DOT] then [parts[0]] else []) + KeepReal(parts[1..])
  }

  function CheckSegments(segments: seq<JsString>): Result<JsString, PathError> {
    if [DOT, DOT] in segments then Err(InvalidPath)
    else if segments == [] then Err(InvalidPath)
    else if |segments| > MAX_DEPTH then Err(TooDeep)
    else if |Join(segments)| > MAX_PATH_CHARS then Err(TooLong)
    else Ok(Join(segments))
  }

  function Normalize(raw: JsString): Result<JsString, PathError> {
    var trimmed := Collapse(StripLeading(Slashed(raw)));
    if trimmed == [] || trimmed == [DOT] || NUL in trimmed then Err(InvalidPath)
    else CheckSegments(KeepReal(Split(trimmed)))
  }

  // ---------- what normalisation amounts to ----------

  lemma {:induction false} CollapseKeepsSegments(s: JsString)
    ensures Split(Collapse(s))[0] == Split(s)[0]
    ensures KeepReal(Split(Collapse(s))[1..]) == KeepReal(Split(s)[1..])
    ensures NUL in Collapse(s) <==> NUL in s
    decreases |s|
  {
    if |s| >= 2 {
      CollapseKeepsSegments(s[1..]);
      assert s == [s[0]] + s[1..];
    }
  }

  lemma {:induction false} StripKeepsSegments(s: JsString)
    ensures KeepReal(Split(StripLeading(s))) == KeepReal(Split(s))
    ensures NUL in StripLeading(s) <==> NUL in s
    decreases |s|
  {
    if s != [] && s[0] == SLASH {
      StripKeepsSegments(s[1..]);
      assert s == [s[0]] + s[1..];
      assert Split(s)[1..] == Split(s[1..]);
    }
  }

  lemma SlashedKeepsNul(s: JsString)
    ensures NUL in Slashed(s) <==> NUL in s
  {
    if NUL in s {
      var i :| 0 <= i < |s| && s[i] == NUL;
      assert Slashed(s)[i] == NUL;
    }
  }

  /** The reference: split at either slash, drop empty and dot segments, check, and join. */
  function Segmentwise(raw: JsString): Result<JsString, PathError> {
    if NUL in raw then Err(InvalidPath) else CheckSegments(KeepReal(Split(Slashed(raw))))
  }

  /** The chain of replacements computes exactly the reference. */
  lemma NormalizeIsSegmentwise(raw: JsString)
    ensures Normalize(raw) == Segmentwise(raw)
  {
    var slashed := Slashed(raw);
    var stripped := StripLeading(slashed);
    SlashedKeepsNul(raw);
    StripKeepsSegments(slashed);
    CollapseKeepsSegments(stripped);
    var a, b := Split(Collapse(stripped)), Split(stripped);
    assert a == [a[0]] + a[1..] && b == [b[0]] + b[1..];
    assert KeepReal(a) == KeepReal(b);
    if Collapse(stripped) == [DOT] {
      assert Split([DOT]) == [[DOT]];
    }
  }

  // ---------- clean paths ----------

  predicate CleanSegment(s: JsString) {
    s != [] && s != [DOT] && s != [DOT, DOT] && BACKSLASH !in s && NUL !in s && SLASH !in s
  }

  predicate Clean(path: JsString) {
    forall s :: s in Split(path) ==> CleanSegment(s)
  }

  lemma {:induction false} JoinOfSplit(s: JsString)
    ensures Join(Split(s)) == s
    decreases |s|
  {
    if s != [] {
      JoinOfSplit(s[1..]);
      var rest := Split(s[1..]);
      if s[0] == SLASH {
        assert Split(s) == [[]] + rest;
        assert Join(Split(s)) == [] + [SLASH] + Join(rest);
      } else {
        assert Split(s) == [[s[0]] + rest[0]] + rest[1..];
        if |rest| > 1 {
          assert Split(s)[1..] == rest[1..];
        }
      }
    }
  }

  lemma {:induction false} SplitNoSlash(s: JsString)
    requires SLASH !in s
    ensures Split(s) == [s]
    decreases |s|
  {
    if s != [] {
      SplitNoSlash(s[1..]);
      assert [s[0]] + s[1..] == s;
    }
  }

  lemma {:induction false} SplitAfterSlash(a: JsString, b: JsString)
    requires SLASH !in a
    ensures Split(a + [SLASH] + b) == [a] + Split(b)
    decreases |a|
  {
    if a == [] {
      assert a + [SLASH] + b == [SLASH] + b;
    } else {
      SplitAfterSlash(a[1..], b);
      assert (a + [SLASH] + b)[1..] == a[1..] + [SLASH] + b;
      assert [a[0]] + a[1..] == a;
    }
  }

  lemma {:induction false} SplitOfJoin(parts: seq<JsString>)
    requires parts != [] && forall p :: p in parts ==> SLASH !in p
    ensures Split(Join(parts)) == parts
    decreases |parts|
  {
    assert parts[0] in parts;
    if |parts| == 1 {
      SplitNoSlash(parts[0]);
    } else {
      SplitOfJoin(parts[1..]);
      SplitAfterSlash(parts[0], Join(parts[1..]));
    }
  }

  lemma {:induction false} SplitHasNoSlash(s: JsString)
    ensures forall p :: p in Split(s) ==> SLASH !in p && forall u :: u in p ==> u in s
    decreases |s|
  {
    if s != [] {
      SplitHasNoSlash(s[1..]);
      var rest := Split(s[1..]);
      assert rest[0] in rest;
      forall p | p in Split(s)
        ensures SLASH !in p && forall u :: u in p ==> u in s
      {
        assert p in rest || p == Split(s)[0];
      }
    }
  }

  lemma {:induction false} KeepRealMembers(parts: seq<JsString>)
    ensures forall p :: p in KeepReal(parts) <==> p in parts && p != [] && p != [DOT]
    decreases |parts|
  {
    if parts != [] {
      KeepRealMembers(parts[1..]);
    }
  }

  lemma {:induction false} KeepRealOfReal(parts: seq<JsString>)
    requires forall p :: p in parts ==> p != [] && p != [DOT]
    ensures KeepReal(parts) == parts
    decreases |parts|
  {
    if parts != [] {
      assert parts[0] in parts && forall p :: p in parts[1..] ==> p in parts;
      KeepRealOfReal(parts[1..]);
    }
  }

  /** The output of normalisation has no empty, `.` or `..` segment, no backslash and no NUL. */
  lemma NormalizedIsClean(raw: JsString)
    requires Normalize(raw).Ok?
    ensures Clean(Normalize(raw).value)
    ensures |Split(Normalize(raw).value)| <= MAX_DEPTH && |Normalize(raw).value| <= MAX_PATH_CHARS
  {
    NormalizeIsSegmentwise(raw);
    var slashed := Slashed(raw);
    var parts := Split(slashed);
    var segments := KeepReal(parts);
    SplitHasNoSlash(slashed);
    KeepRealMembers(parts);
    SlashedKeepsNul(raw);
    SplitOfJoin(segments);
    forall s | s in segments
      ensures CleanSegment(s)
    {
      assert BACKSLASH !in slashed;
    }
  }

  /** A clean path passes unchanged unless it is too deep or too long. */
  lemma NormalizeOfClean(path: JsString)
    requires Clean(path)
    ensures Normalize(path) == if |Split(path)| > MAX_DEPTH then Err(TooDeep)
                               else if |path| > MAX_PATH_CHARS then Err(TooLong)
                               else Ok(path)
  {
    NormalizeIsSegmentwise(path);
    JoinOfSplit(path);
    CleanHasNoBadUnit(path);
    assert Slashed(path) == path;
    KeepRealOfReal(Split(path));
  }

  lemma {:induction false} UnitsOfSplit(s: JsString, u: Unit)
    requires u in s && u != SLASH
    ensures exists p :: p in Split(s) && u in p
    decreases |s|
  {
    var rest := Split(s[1..]);
    if s[0] == u {
      assert Split(s)[0] == [u] + rest[0];
      assert u in Split(s)[0];
    } else {
      UnitsOfSplit(s[1..], u);
      var p :| p in rest && u in p;
      if p == rest[0] && s[0] != SLASH {
        assert u in Split(s)[0];
      } else {
        var k :| 0 <= k < |rest| && rest[k] == p;
        assert s[0] == SLASH ==> Split(s)[k + 1] == p;
        assert s[0] != SLASH && k > 0 ==> Split(s)[k] == p;
        assert p in Split(s);
      }
    }
  }

  lemma CleanHasNoBadUnit(path: JsString)
    requires Clean(path)
    ensures NUL !in path && BACKSLASH !in path
  {
    if NUL in path {
      UnitsOfSplit(path, NUL);
    }
    if BACKSLASH in path {
      UnitsOfSplit(path, BACKSLASH);
    }
  }

  /** Normalising twice is normalising once. */
  lemma NormalizeIdempotent(raw: JsString)
    requires Normalize(raw).Ok?
    ensures Normalize(Normalize(raw).value) == Normalize(raw)
  {
    NormalizedIsClean(raw);
    NormalizeOfClean(Normalize(raw).value);
  }
}
