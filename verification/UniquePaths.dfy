/** De-duplicating archive paths by inserting a count before the extension. */
module UniquePaths {
  import opened Wrappers
  import opened ArchivePaths

  const SPACE: Unit := 0x20
  const OPEN: Unit := 0x28
  const CLOSE: Unit := 0x29
  const ZERO: Unit := 0x30

  /** Position of the last `u` in `s`, or -1. */
  function LastIndexOf(s: JsString, u: Unit): (i: int)
    ensures -1 <= i < |s|
    ensures i >= 0 ==> s[i] == u
    ensures forall j :: i < j < |s| ==> s[j] != u
  {
    if s == [] then -1
    else if s[|s| - 1] == u then |s| - 1
    else LastIndexOf(s[..|s| - 1], u)
  }

  function Decimal(n: nat): (d: JsString)
    ensures d != [] && forall i :: 0 <= i < |d| ==> ZERO <= d[i] <= ZERO + 9
  {
    if n < 10 then [ZERO + n] else Decimal(n / 10) + [ZERO + n % 10]
  }

  /** " (count)" */
  function Tag(count: nat): JsString {
    [SPACE, OPEN] + Decimal(count) + [CLOSE]
  }

  /** Where the count goes: before the extension, if there is one. */
  function Cut(base: JsString): (k: nat)
    ensures k <= |base|
  {
    var dot := LastIndexOf(base, DOT);
    if dot > LastIndexOf(base, SLASH) + 1 then dot else |base|
  }

  function Generated(base: JsString, count: nat): JsString {
    base[..Cut(base)] + Tag(count) + base[Cut(base)..]
  }

  /** How many earlier paths equal path number `i`. */
  function Earlier(bases: seq<JsString>, i: nat): nat
    requires i < |bases|
  {
    Occurrences(bases[..i], bases[i])
  }

  function Occurrences(paths: seq<JsString>, p: JsString): nat {
    if paths == [] then 0
    else Occurrences(paths[..|paths| - 1], p) + if paths[|paths| - 1] == p then 1 else 0
  }

  function PathAt(bases: seq<JsString>, i: nat): JsString
    requires i < |bases|
  {
    if Earlier(bases, i) == 0 then bases[i] else Generated(bases[i], Earlier(bases, i))
  }

  function Unique(bases: seq<JsString>): (paths: seq<JsString>)
    ensures |paths| == |bases|
  {
    seq(|bases|, i requires 0 <= i < |bases| => PathAt(bases, i))
  }

  ghost predicate AllNormalize(names: seq<JsString>) {
    forall i :: 0 <= i < |names| ==> Normalize(names[i]).Ok?
  }

  ghost function Bases(names: seq<JsString>): seq<JsString>
    requires AllNormalize(names)
  {
    seq(|names|, i requires 0 <= i < |names| => Normalize(names[i]).value)
  }

  method UniqueArchivePaths(names: seq<JsString>) returns (r: Result<seq<JsString>, PathError>)
    ensures r.Ok? <==> AllNormalize(names)
    ensures r.Ok? ==> r.value == Unique(Bases(names))
  {
    hide Normalize, Tag, LastIndexOf, Unique, Occurrences;
    var used: map<JsString, nat> := map[];
    var paths: seq<JsString> := [];
    ghost var bases: seq<JsString> := [];
    NothingYet();
    var i := 0;
    while i < |names|
      invariant 0 <= i <= |names| && |paths| == |bases| == i
      invariant forall j :: 0 <= j < i ==> Normalize(names[j]) == Ok(bases[j])
      invariant forall p :: (if p in used then used[p] else 0) == Occurrences(bases, p)
      invariant paths == Unique(bases)
    {
      var normalized := Normalize(names[i]);
      if normalized.Err? {
        return Err(normalized.error);
      }
      var base := normalized.value;
      var count := if base in used then used[base] else 0;
      used := used[base := count + 1];
      var path := base;
      if count > 0 {
        var dot := LastIndexOf(base, DOT);
        var slash := LastIndexOf(base, SLASH);
        if dot > slash + 1 {
          path := base[..dot] + Tag(count) + base[dot..];
        } else {
          path := base + Tag(count);
        }
      }
      assert path == if count == 0 then base else Generated(base, count);
      UniqueSnoc(bases, base);
      OccurrencesSnoc(bases, base);
      paths := paths + [path];
      bases := bases + [base];
      i := i + 1;
    }
    assert bases == Bases(names);
    return Ok(paths);
  }

  lemma NothingYet()
    ensures Unique([]) == [] && forall p :: Occurrences([], p) == 0
  {
  }

  lemma OccurrencesSnoc(bases: seq<JsString>, base: JsString)
    ensures forall p :: Occurrences(bases + [base], p) == Occurrences(bases, p) + if p == base then 1 else 0
  {
    assert (bases + [base])[..|bases|] == bases;
  }

  lemma UniqueSnoc(bases: seq<JsString>, base: JsString)
    ensures Unique(bases + [base])
         == Unique(bases) + [if Occurrences(bases, base) == 0 then base else Generated(base, Occurrences(bases, base))]
  {
    var longer := bases + [base];
    assert longer[..|bases|] == bases;
    forall i | 0 <= i < |bases|
      ensures PathAt(longer, i) == PathAt(bases, i)
    {
      assert longer[..i] == bases[..i];
    }
  }

  // ---------- when the result has no duplicates ----------

  ghost predicate Distinct(paths: seq<JsString>) {
    forall i, j :: 0 <= i < j < |paths| ==> paths[i] != paths[j]
  }

  /** Some path of the list is spelled like the count of another one. */
  ghost predicate SpelledLikeACount(bases: seq<JsString>) {
    exists i, j :: 0 <= i < |bases| && 0 <= j < |bases| && Earlier(bases, i) > 0
                   && Generated(bases[i], Earlier(bases, i)) == bases[j]
  }

  lemma {:induction false} OccurrencesGrow(paths: seq<JsString>, i: nat, j: nat, p: JsString)
    requires i <= j <= |paths|
    ensures Occurrences(paths[..i], p) <= Occurrences(paths[..j], p)
    ensures i < j && paths[i] == p ==> Occurrences(paths[..i], p) < Occurrences(paths[..j], p)
    decreases j
  {
    if i < j {
      assert paths[..j][..j - 1] == paths[..j - 1];
      OccurrencesGrow(paths, i, j - 1, p);
    }
  }

  lemma {:induction false} FirstOccurrence(paths: seq<JsString>, j: nat) returns (k: nat)
    requires j < |paths|
    ensures k <= j && paths[k] == paths[j] && Earlier(paths, k) == 0
    decreases j
  {
    if Earlier(paths, j) == 0 {
      k := j;
    } else {
      var before := OccursBefore(paths[..j], paths[j]);
      k := FirstOccurrence(paths, before);
    }
  }

  lemma {:induction false} OccursBefore(paths: seq<JsString>, p: JsString) returns (k: nat)
    requires Occurrences(paths, p) > 0
    ensures k < |paths| && paths[k] == p
    decreases |paths|
  {
    if paths[|paths| - 1] == p {
      k := |paths| - 1;
    } else {
      k := OccursBefore(paths[..|paths| - 1], p);
    }
  }

  /** Digits determine the number. */
  lemma {:induction false} DecimalInjective(m: nat, n: nat)
    requires Decimal(m) == Decimal(n)
    ensures m == n
    decreases m
  {
    var d, e := Decimal(m), Decimal(n);
    assert d[|d| - 1] == ZERO + m % 10 && e[|e| - 1] == ZERO + n % 10;
    if m >= 10 && n >= 10 {
      assert d[..|d| - 1] == Decimal(m / 10) && e[..|e| - 1] == Decimal(n / 10);
      DecimalInjective(m / 10, n / 10);
    }
  }

  /** The last opening parenthesis of a text that ends in a count is the count's. */
  lemma TagEndsAt(x: JsString, c: nat)
    ensures LastIndexOf(x + Tag(c), OPEN) == |x| + 1
  {
    var s := x + Tag(c);
    var k := |x| + 1;
    assert s[k] == OPEN;
    forall j | k < j < |s|
      ensures s[j] != OPEN
    {
      assert s[j] == Tag(c)[j - |x|];
    }
  }

  lemma TagInjective(x: JsString, c: nat, y: JsString, d: nat)
    requires x + Tag(c) == y + Tag(d)
    ensures x == y && c == d
  {
    TagEndsAt(x, c);
    TagEndsAt(y, d);
    assert |x| == |y|;
    var s := x + Tag(c);
    assert x == s[..|x|] == y;
    assert Tag(c) == s[|x|..] == Tag(d);
    assert Decimal(c) == Tag(c)[2..|Tag(c)| - 1] == Decimal(d);
    DecimalInjective(c, d);
  }

  lemma TagIsPlain(c: nat)
    ensures DOT !in Tag(c) && SLASH !in Tag(c)
  {
  }

  lemma InsertedAt(s: JsString, k: nat, text: JsString, j: nat)
    requires k <= |s| && j < |s| + |text|
    ensures |s[..k] + text + s[k..]| == |s| + |text|
    ensures (s[..k] + text + s[k..])[j]
         == if j < k then s[j] else if j < k + |text| then text[j - k] else s[j - |text|]
  {
  }

  /** Inserting a plain text at `k` moves what stands behind `k`. */
  lemma LastIndexAfterInsert(s: JsString, k: nat, text: JsString, u: Unit)
    requires k <= |s| && u !in text
    ensures LastIndexOf(s[..k] + text + s[k..], u)
         == if LastIndexOf(s, u) < k then LastIndexOf(s, u) else LastIndexOf(s, u) + |text|
  {
    hide LastIndexOf;
    var i := LastIndexOf(s, u);
    var m := if i < k then i else i + |text|;
    if m >= 0 {
      InsertedAt(s, k, text, m);
    }
    var g := s[..k] + text + s[k..];
    assert |g| == |s| + |text|;
    forall j | m < j < |g|
      ensures g[j] != u
    {
      InsertedAt(s, k, text, j);
    }
    LastIndexUnique(g, u, m);
  }

  /** Inserting the count moves the last dot, and changes nothing else about where the cut is. */
  lemma GeneratedShape(base: JsString, c: nat)
    ensures var g := Generated(base, c);
            && Cut(g) == (if Cut(base) == |base| then |g| else Cut(base) + |Tag(c)|)
            && g[..Cut(g)] == base[..Cut(base)] + Tag(c)
            && g[Cut(g)..] == base[Cut(base)..]
  {
    TagIsPlain(c);
    hide Tag, LastIndexOf;
    LastIndexAfterInsert(base, Cut(base), Tag(c), SLASH);
    LastIndexAfterInsert(base, Cut(base), Tag(c), DOT);
  }

  lemma LastIndexUnique(s: JsString, u: Unit, k: int)
    requires -1 <= k < |s| && (k >= 0 ==> s[k] == u)
    requires forall j :: k < j < |s| ==> s[j] != u
    ensures LastIndexOf(s, u) == k
  {
  }

  lemma GeneratedInjective(a: JsString, c: nat, b: JsString, d: nat)
    requires Generated(a, c) == Generated(b, d)
    ensures a == b && c == d
  {
    var g := Generated(a, c);
    GeneratedShape(a, c);
    GeneratedShape(b, d);
    TagInjective(a[..Cut(a)], c, b[..Cut(b)], d);
    assert a == a[..Cut(a)] + a[Cut(a)..];
    assert b == b[..Cut(b)] + b[Cut(b)..];
  }

  /**
   The names generated for one list are recorded nowhere, so the result is free of duplicates if and only if no
   path of the list is itself spelled like the count of another.
   */
  lemma UniqueUnlessSpelledLikeACount(bases: seq<JsString>)
    ensures Distinct(Unique(bases)) <==> !SpelledLikeACount(bases)
  {
    var paths := Unique(bases);
    if SpelledLikeACount(bases) {
      var i, j :| 0 <= i < |bases| && 0 <= j < |bases| && Earlier(bases, i) > 0
                  && Generated(bases[i], Earlier(bases, i)) == bases[j];
      var k := FirstOccurrence(bases, j);
      assert paths[k] == paths[i] && k != i;
    } else {
      forall i, j | 0 <= i < j < |paths|
        ensures paths[i] != paths[j]
      {
        if bases[i] == bases[j] {
          OccurrencesGrow(bases, i, j, bases[i]);
        }
        if paths[i] == paths[j] && Earlier(bases, i) > 0 && Earlier(bases, j) > 0 {
          GeneratedInjective(bases[i], Earlier(bases, i), bases[j], Earlier(bases, j));
        }
      }
    }
  }

  /** "a.txt", "a.txt", "a (1).txt": the second and the third come out the same. */
  lemma CollisionExample()
    ensures var a := [0x61, DOT, 0x74, 0x78, 0x74];
            var a1 := [0x61, SPACE, OPEN, ZERO + 1, CLOSE, DOT, 0x74, 0x78, 0x74];
            && Unique([a, a, a1])[1] == Unique([a, a, a1])[2]
            && !Distinct(Unique([a, a, a1]))
  {
    var a: JsString := [0x61, DOT, 0x74, 0x78, 0x74];
    var a1: JsString := [0x61, SPACE, OPEN, ZERO + 1, CLOSE, DOT, 0x74, 0x78, 0x74];
    var bases := [a, a, a1];
    LastIndexUnique(a, DOT, 1);
    LastIndexUnique(a, SLASH, -1);
    assert Generated(a, 1) == a1;
    assert bases[..1] == [a] && bases[..2] == [a, a];
    assert [a][..0] == [] && [a, a][..1] == [a];
    assert Occurrences([a], a) == 1 && Occurrences([a], a1) == 0 && Occurrences([a, a], a1) == 0;
    assert Unique(bases)[1] == Unique(bases)[2];
  }

  // ---------- generated names are still clean ----------

  /** The segments of `head`, which is empty or ends in a slash. */
  function Folders(head: JsString): (f: seq<JsString>)
    ensures |f| == |Split(head)| - 1
  {
    Split(head)[..|Split(head)| - 1]
  }

  ghost predicate IsFolderPart(head: JsString) {
    head == [] || head[|head| - 1] == SLASH
  }

  /** The last segment stands alone at the end of the split. */
  lemma {:induction false} SplitLast(head: JsString, last: JsString)
    requires IsFolderPart(head) && SLASH !in last
    ensures Split(head + last) == Folders(head) + [last]
    ensures head != [] ==> Folders(head) != []
    decreases |head|
  {
    if head == [] {
      assert head + last == last;
      SplitNoSlash(last);
    } else {
      var rest, tail := Split(head[1..]), head[1..] + last;
      assert (head + last)[0] == head[0] && (head + last)[1..] == tail;
      SplitLast(head[1..], last);
      if head[0] == SLASH {
        assert Folders(head) == [[]] + Folders(head[1..]);
      } else {
        assert Folders(head) == [[head[0]] + rest[0]] + Folders(head[1..])[1..];
        assert Split(tail)[0] == rest[0];
        assert Split(tail)[1..] == Folders(head[1..])[1..] + [last];
      }
    }
  }

  /** A clean path ends in a clean segment, and stays clean when that one is replaced by another. */
  lemma ReplaceLast(head: JsString, last: JsString, other: JsString)
    requires IsFolderPart(head) && SLASH !in last && Clean(head + last)
    ensures CleanSegment(last)
    ensures CleanSegment(other) ==> Clean(head + other) && |Split(head + other)| == |Split(head + last)|
  {
    hide CleanSegment, Split;
    SplitLast(head, last);
    assert last in Split(head + last);
    if CleanSegment(other) {
      assert SLASH !in other by { CleanSegmentFacts(other); }
      SplitLast(head, other);
      forall s | s in Split(head + other)
        ensures CleanSegment(s)
      {
        assert s in Folders(head) ==> s in Split(head + last);
      }
    }
  }

  lemma CleanSegmentFacts(s: JsString)
    ensures CleanSegment(s) ==> s != [] && SLASH !in s && NUL !in s && BACKSLASH !in s
    ensures OPEN in s && SLASH !in s && NUL !in s && BACKSLASH !in s ==> CleanSegment(s)
  {
  }

  /** The count is inserted into the last segment. */
  lemma GeneratedParts(base: JsString, c: nat)
    returns (head: JsString, left: JsString, right: JsString)
    ensures IsFolderPart(head) && SLASH !in left && SLASH !in right
    ensures base == head + (left + right)
    ensures Generated(base, c) == head + (left + Tag(c) + right)
  {
    hide Tag, LastIndexOf;
    var k, slash := Cut(base), LastIndexOf(base, SLASH);
    head, left, right := base[..slash + 1], base[slash + 1..k], base[k..];
  }

  lemma InsertedIsClean(left: JsString, right: JsString, c: nat)
    requires CleanSegment(left + right)
    ensures CleanSegment(left + Tag(c) + right)
  {
    hide CleanSegment, Tag;
    TagUnits(c);
    CleanSegmentFacts(left + right);
    CleanSegmentFacts(left + Tag(c) + right);
  }

  /** A generated name has the same segments as its base but for the last, and they are all clean. */
  lemma GeneratedIsClean(base: JsString, c: nat)
    requires Clean(base)
    ensures Clean(Generated(base, c)) && |Split(Generated(base, c))| == |Split(base)|
  {
    hide CleanSegment, Split, Tag, Clean, Generated;
    var head, left, right := GeneratedParts(base, c);
    ReplaceLast(head, left + right, left + right);
    InsertedIsClean(left, right, c);
    ReplaceLast(head, left + right, left + Tag(c) + right);
  }

  lemma TagUnits(c: nat)
    ensures OPEN in Tag(c) && SLASH !in Tag(c) && NUL !in Tag(c) && BACKSLASH !in Tag(c)
  {
    assert Tag(c)[1] == OPEN;
  }

  /** Whatever de-duplication returns for normalised names, normalising it again changes nothing but may reject it. */
  lemma UniqueIsFixed(names: seq<JsString>, i: nat)
    requires AllNormalize(names) && i < |names|
    ensures var path := Unique(Bases(names))[i];
            Clean(path) && (Normalize(path).Ok? ==> Normalize(path).value == path)
            && (Normalize(path).Err? <==> |path| > MAX_PATH_CHARS)
  {
    var base := Bases(names)[i];
    NormalizedIsClean(names[i]);
    GeneratedIsClean(base, Earlier(Bases(names), i));
    NormalizeOfClean(Unique(Bases(names))[i]);
  }
}
