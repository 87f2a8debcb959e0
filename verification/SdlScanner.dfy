/** The two bracket scanners of the GraphQL SDL reader: the block between braces, and the cutting of an
    argument list at its top-level commas.  Both walk a Go string rune by rune and slice it by bytes. */
module SdlScanner {

  import opened Utf8

  const COMMA: Byte := 44
  const LBRACE: Byte := 123
  const RBRACE: Byte := 125

  datatype Brackets = Brackets(open: set<Byte>, close: set<Byte>)

  const BRACES := Brackets({LBRACE}, {RBRACE})
  const NESTING := Brackets({40, 91}, {41, 93})

  function Delta(k: Brackets, c: Byte): int {
    if c in k.open then 1 else if c in k.close then -1 else 0
  }

  /** How deep a scan stands after reading s; negative when closing brackets lead. */
  function Depth(k: Brackets, s: Bytes): int {
    if s == [] then 0 else Depth(k, s[..|s| - 1]) + Delta(k, s[|s| - 1])
  }

  lemma {:induction false} DepthStep(k: Brackets, s: Bytes, i: nat)
    requires i < |s|
    ensures Depth(k, s[..i + 1]) == Depth(k, s[..i]) + Delta(k, s[i])
  {
    assert s[..i + 1][..i] == s[..i];
  }

  lemma {:induction false} DepthConcat(k: Brackets, a: Bytes, b: Bytes)
    ensures Depth(k, a + b) == Depth(k, a) + Depth(k, b)
    decreases |b|
  {
    if b == [] {
      assert a + b == a;
    } else {
      assert (a + b)[..|a + b| - 1] == a + b[..|b| - 1];
      DepthConcat(k, a, b[..|b| - 1]);
    }
  }

  /** A stretch without brackets leaves the depth as it was, at every point of it. */
  lemma {:induction false} DepthSkip(k: Brackets, s: Bytes, i: nat, j: nat)
    requires i <= j <= |s| && forall m :: i <= m < j ==> Delta(k, s[m]) == 0
    ensures Depth(k, s[..j]) == Depth(k, s[..i])
    decreases j
  {
    if i < j {
      DepthStep(k, s, j - 1);
      DepthSkip(k, s, i, j - 1);
    }
  }

  // ---------------------------------------------------------------- extractBraceBlock

  /** The brace at b opens a block: the scan stands at depth 0 there. */
  predicate Opens(s: Bytes, b: nat)
  {
    b < |s| && s[b] == LBRACE && Depth(BRACES, s[..b]) == 0
  }

  /** The brace at e brings the scan back to depth 0. */
  predicate Closes(s: Bytes, e: nat)
  {
    e < |s| && s[e] == RBRACE && Depth(BRACES, s[..e + 1]) == 0
  }

  ghost predicate BlockAt(s: Bytes, b: nat, e: nat) {
    && b < e && Opens(s, b) && Closes(s, e)
    && (forall x: nat :: x < e ==> !Closes(s, x))
    && (forall x: nat :: b < x < e ==> !Opens(s, x))
  }

  /** What the scan returns: the text between the first brace that brings the depth back to 0 and the
      last one before it that left depth 0; nothing when there is none. */
  ghost predicate IsBlock(s: Bytes, block: Bytes) {
    if exists e: nat :: Closes(s, e) then exists b: nat, e: nat :: BlockAt(s, b, e) && block == s[b + 1..e]
    else block == []
  }

  lemma {:induction false} BlockIsUnique(s: Bytes, p: Bytes, q: Bytes)
    requires IsBlock(s, p) && IsBlock(s, q)
    ensures p == q
  {
    if exists e: nat :: Closes(s, e) {
      var b: nat, e: nat :| BlockAt(s, b, e) && p == s[b + 1..e];
      var b': nat, e': nat :| BlockAt(s, b', e') && q == s[b' + 1..e'];
      assert e == e';
      assert b == b';
    }
  }

  /** extractBraceBlock.  Every slice it takes is in range: a scan that comes back to depth 0 has left it. */
  method ExtractBraceBlock(s: Bytes) returns (block: Bytes)
    ensures IsBlock(s, block)
  {
    hide Depth, DecodeRune;
    var depth, start, i := 0, -1, 0;
    assert Depth(BRACES, s[..0]) == 0 by { DepthOfNothing(BRACES, s); }
    while i < |s|
      invariant 0 <= i <= |s|
      invariant depth == Depth(BRACES, s[..i])
      invariant forall x: nat :: x < i ==> !Closes(s, x)
      invariant depth > 0 ==> 0 < start <= i && Opens(s, start - 1)
      invariant depth > 0 ==> forall x: nat :: start <= x < i ==> !Opens(s, x)
    {
      var (ch, w) := DecodeRune(s[i..]);
      AsciiRune(s[i..]);
      if ch == LBRACE {
        DepthStep(BRACES, s, i);
        if depth == 0 {
          start := i + 1;
        }
        depth := depth + 1;
      } else if ch == RBRACE {
        DepthStep(BRACES, s, i);
        depth := depth - 1;
        if depth == 0 {
          assert BlockAt(s, start - 1, i);
          return s[start..i];
        }
      } else {
        assert forall m :: i <= m < i + w ==> Delta(BRACES, s[m]) == 0 by {
          assert forall m :: i <= m < i + w ==> s[m] == s[i..][m - i];
        }
        DepthSkip(BRACES, s, i, i + w);
      }
      i := i + w;
    }
    return [];
  }

  lemma {:induction false} DepthOfNothing(k: Brackets, s: Bytes)
    ensures Depth(k, s[..0]) == 0
  {
  }

  predicate BraceFree(s: Bytes) {
    LBRACE !in s && RBRACE !in s
  }

  /** Every closing brace has its opening one, and the other way round. */
  predicate Balanced(s: Bytes) {
    Depth(BRACES, s) == 0 && forall n :: 0 <= n <= |s| ==> Depth(BRACES, s[..n]) >= 0
  }

  function Wrapped(p: Bytes, body: Bytes, rest: Bytes): Bytes {
    p + [LBRACE] + body + [RBRACE] + rest
  }

  /** Inside a block, and after a stretch p, the scan stands one deeper than in the body alone. */
  lemma {:induction false} DepthInside(p: Bytes, t: Bytes, n: nat)
    requires n <= |t|
    ensures Depth(BRACES, (p + [LBRACE] + t)[..|p| + 1 + n]) == Depth(BRACES, p) + 1 + Depth(BRACES, t[..n])
  {
    assert (p + [LBRACE] + t)[..|p| + 1 + n] == p + [LBRACE] + t[..n];
    DepthConcat(BRACES, p + [LBRACE], t[..n]);
    DepthConcat(BRACES, p, [LBRACE]);
    DepthOfOne(LBRACE);
  }

  lemma {:induction false} DepthOfOne(c: Byte)
    ensures Depth(BRACES, [c]) == Delta(BRACES, c)
  {
    DepthStep(BRACES, [c], 0);
    assert [c][..1] == [c];
  }

  lemma {:induction false} BraceFreeDepth(p: Bytes, n: nat)
    requires BraceFree(p) && n <= |p|
    ensures Depth(BRACES, p[..n]) == 0
  {
    DepthSkip(BRACES, p, 0, n);
    DepthOfNothing(BRACES, p);
  }

  /** Up to a point where the text after the first brace has not dipped below 0, nothing closes and
      nothing else opens. */
  lemma {:induction false} NothingCloses(p: Bytes, t: Bytes, n: nat)
    requires BraceFree(p) && n <= |t| && forall m: nat :: m <= n ==> Depth(BRACES, t[..m]) >= 0
    ensures forall x: nat :: x < |p| + 1 + n ==> !Closes(p + [LBRACE] + t, x)
    ensures forall x: nat :: |p| < x <= |p| + n ==> !Opens(p + [LBRACE] + t, x)
    ensures Opens(p + [LBRACE] + t, |p|)
  {
    hide Depth;
    var s := p + [LBRACE] + t;
    BraceFreeDepth(p, |p|);
    assert p[..|p|] == p && s[..|p|] == p;
    forall x: nat | x < |p| + 1 + n
      ensures !Closes(s, x)
      ensures |p| < x ==> !Opens(s, x)
    {
      if x > |p| {
        DepthInside(p, t, x - |p|);
        DepthInside(p, t, x - |p| - 1);
        assert Depth(BRACES, t[..x - |p|]) >= 0 && Depth(BRACES, t[..x - |p| - 1]) >= 0;
      }
    }
  }

  lemma {:induction false} FirstDipIsBlock(p: Bytes, t: Bytes, n: nat)
    requires BraceFree(p) && n < |t| && t[n] == RBRACE && Depth(BRACES, t[..n]) == 0
    requires forall m: nat :: m <= n ==> Depth(BRACES, t[..m]) >= 0
    ensures BlockAt(p + [LBRACE] + t, |p|, |p| + 1 + n)
  {
    hide Depth;
    NothingCloses(p, t, n);
    BraceFreeDepth(p, |p|);
    assert p[..|p|] == p;
    DepthInside(p, t, n + 1);
    DepthStep(BRACES, t, n);
    assert Closes(p + [LBRACE] + t, |p| + 1 + n);
  }

  /** The round trip: after a prefix without braces, a balanced body comes back exactly, whatever follows. */
  lemma {:induction false} BlockRoundTrip(p: Bytes, body: Bytes, rest: Bytes, block: Bytes)
    requires BraceFree(p) && Balanced(body) && IsBlock(Wrapped(p, body, rest), block)
    ensures block == body
  {
    hide Depth, BraceFree, Closes, Opens;
    var s, t := Wrapped(p, body, rest), body + [RBRACE] + rest;
    assert s == p + [LBRACE] + t;
    forall m: nat | m <= |body| ensures Depth(BRACES, t[..m]) >= 0 {
      assert t[..m] == body[..m];
    }
    assert t[..|body|] == body && t[|body|] == RBRACE;
    FirstDipIsBlock(p, t, |body|);
    assert s[|p| + 1..|p| + 1 + |body|] == body;
    assert IsBlock(s, body);
    BlockIsUnique(s, block, body);
  }

  /** An opening brace that is never matched gives nothing. */
  lemma {:induction false} UnmatchedGivesNothing(p: Bytes, t: Bytes, block: Bytes)
    requires BraceFree(p) && IsBlock(p + [LBRACE] + t, block)
    requires forall m: nat :: m <= |t| ==> Depth(BRACES, t[..m]) >= 0
    ensures block == []
  {
    NothingCloses(p, t, |t|);
  }

  /** The text up to the first dip below depth 0 is balanced, and the dip is a closing brace. */
  lemma {:induction false} FirstDip(t: Bytes, n: nat) returns (m: nat)
    requires n <= |t| && Depth(BRACES, t[..n]) < 0
    ensures m < |t| && t[m] == RBRACE && Balanced(t[..m])
    decreases n
  {
    hide Depth;
    DepthOfNothing(BRACES, t);
    DepthStep(BRACES, t, n - 1);
    if k: nat :| k < n && Depth(BRACES, t[..k]) < 0 {
      m := FirstDip(t, k);
    } else {
      m := n - 1;
      forall i | 0 <= i <= |t[..m]| ensures Depth(BRACES, t[..m][..i]) >= 0 {
        assert t[..m][..i] == t[..i];
      }
    }
  }

  /** When no brace comes before the first opening one, the result is exactly the body of that brace's
      block, or nothing if it has no matching brace. */
  lemma {:induction false} BlockExactly(p: Bytes, t: Bytes, block: Bytes)
    requires BraceFree(p) && IsBlock(p + [LBRACE] + t, block)
    ensures if exists m: nat :: m <= |t| && Depth(BRACES, t[..m]) < 0
            then Balanced(block) && |block| < |t| && t[..|block|] == block && t[|block|] == RBRACE
            else block == []
  {
    if n: nat :| n <= |t| && Depth(BRACES, t[..n]) < 0 {
      var m := FirstDip(t, n);
      assert p + [LBRACE] + t == Wrapped(p, t[..m], t[m + 1..]);
      BlockRoundTrip(p, t[..m], t[m + 1..], block);
    } else {
      UnmatchedGivesNothing(p, t, block);
    }
  }

  lemma {:induction false} NoOpeningDepth(p: Bytes, n: nat)
    requires LBRACE !in p && n <= |p|
    ensures Depth(BRACES, p[..n]) <= 0
    ensures n > 0 && p[n - 1] == RBRACE ==> Depth(BRACES, p[..n]) < 0
    ensures forall i :: 0 <= i < n && p[i] == RBRACE ==> Depth(BRACES, p[..n]) < 0
    decreases n
  {
    if n == 0 {
      DepthOfNothing(BRACES, p);
    } else {
      DepthStep(BRACES, p, n - 1);
      NoOpeningDepth(p, n - 1);
    }
  }

  /** A closing brace before the first opening one loses the block: {x} is not found after it. */
  lemma {:induction false} StrayBraceLosesBlock(p: Bytes)
    requires LBRACE !in p && RBRACE in p
    ensures Balanced([120]) && IsBlock(Wrapped(p, [120], []), [])
  {
    hide Depth;
    DepthOfOne(120);
    assert [120][..0] == [] && [120][..1] == [120];
    DepthOfNothing(BRACES, [120]);
    var t: Bytes := [120, RBRACE];
    var s := Wrapped(p, [120], []);
    assert s == p + [LBRACE] + t;
    NoOpeningDepth(p, |p|);
    assert p[..|p|] == p;
    forall x: nat | x < |s| ensures !Closes(s, x) {
      if x < |p| {
        NoOpeningDepth(p, x + 1);
        assert s[..x + 1] == p[..x + 1];
      } else if x == |s| - 1 {
        DepthInside(p, t, 2);
        DepthStep(BRACES, t, 1);
        assert t[..1] == [120];
      }
    }
  }

  /** Exactly when the scan finds the first block after a prefix without opening braces, for every body
      and every rest: when the prefix holds no closing brace either. */
  lemma {:induction false} FirstBlockFoundExactly(p: Bytes)
    requires LBRACE !in p
    ensures (forall body, rest, block ::
               Balanced(body) && IsBlock(Wrapped(p, body, rest), block) ==> block == body) <==> RBRACE !in p
  {
    if RBRACE in p {
      StrayBraceLosesBlock(p);
      assert Balanced([120]) && IsBlock(Wrapped(p, [120], []), []);
    } else {
      forall body, rest, block | Balanced(body) && IsBlock(Wrapped(p, body, rest), block) ensures block == body {
        BlockRoundTrip(p, body, rest, block);
      }
    }
  }

  // ---------------------------------------------------------------- splitArgs

  /** A comma outside all brackets. */
  predicate CutAt(s: Bytes, i: nat) {
    i < |s| && s[i] == COMMA && Depth(NESTING, s[..i]) == 0
  }

  /** The first cut at or after i, |s| if there is none. */
  function NextCut(s: Bytes, i: nat): (c: nat)
    requires i <= |s|
    ensures i <= c <= |s|
    ensures forall x: nat :: i <= x < c ==> !CutAt(s, x)
    ensures c < |s| ==> CutAt(s, c)
    decreases |s| - i
  {
    if i == |s| || CutAt(s, i) then i else NextCut(s, i + 1)
  }

  /** The parts between the cuts. */
  function Split(s: Bytes): (parts: seq<Bytes>)
    ensures parts != []
  {
    var c := NextCut(s, 0);
    if c == |s| then [s] else [s[..c]] + Split(s[c + 1..])
  }

  function Join(parts: seq<Bytes>): Bytes
    requires parts != []
  {
    if |parts| == 1 then parts[0] else parts[0] + [COMMA] + Join(parts[1..])
  }

  /** splitArgs */
  method SplitArgs(s: Bytes) returns (parts: seq<Bytes>)
    ensures parts == Split(s)
  {
    hide Depth, DecodeRune, Split;
    parts := [];
    var depth, start, i := 0, 0, 0;
    assert s[0..] == s && Depth(NESTING, s[..0]) == 0 by { DepthOfNothing(NESTING, s); }
    while i < |s|
      invariant 0 <= start <= i <= |s|
      invariant depth == Depth(NESTING, s[start..][..i - start])
      invariant parts + Split(s[start..]) == Split(s)
      invariant forall x: nat :: x < i - start ==> !CutAt(s[start..], x)
    {
      var (ch, w) := DecodeRune(s[i..]);
      AsciiRune(s[i..]);
      var here := s[start..];
      assert here[i - start] == s[i];
      DepthStep(NESTING, here, i - start);
      if ch == 40 || ch == 91 {
        depth := depth + 1;
      } else if ch == 41 || ch == 93 {
        depth := depth - 1;
      } else if ch == COMMA {
        if depth == 0 {
          CutSplits(here, i - start);
          assert s[start..i] == here[..i - start] && s[i + 1..] == here[i - start + 1..];
          parts := parts + [s[start..i]];
          start := i + 1;
          DepthOfNothing(NESTING, s[start..]);
        }
      } else {
        assert forall m :: i <= m < i + w ==> s[m] == s[i..][m - i];
        assert forall m :: i - start <= m < i - start + w ==> here[m] == s[start + m];
        DepthSkip(NESTING, here, i - start, i - start + w);
      }
      i := i + w;
    }
    NoCutIsWhole(s[start..]);
    parts := parts + [s[start..]];
  }

  lemma {:induction false} CutSplits(s: Bytes, c: nat)
    requires CutAt(s, c) && forall x: nat :: x < c ==> !CutAt(s, x)
    ensures Split(s) == [s[..c]] + Split(s[c + 1..])
  {
  }

  lemma {:induction false} NoCutIsWhole(s: Bytes)
    requires forall x: nat :: x < |s| ==> !CutAt(s, x)
    ensures Split(s) == [s]
  {
  }

  /** Joining the parts with commas gives the text back. */
  lemma {:induction false} JoinOfSplit(s: Bytes)
    ensures Join(Split(s)) == s
    decreases |s|
  {
    var c := NextCut(s, 0);
    if c < |s| {
      JoinOfSplit(s[c + 1..]);
      var tail := Split(s[c + 1..]);
      assert ([s[..c]] + tail)[1..] == tail;
      assert s == s[..c] + [COMMA] + s[c + 1..];
    }
  }

  /** A part holds no comma outside its brackets. */
  predicate Whole(part: Bytes) {
    forall x: nat :: x < |part| ==> !CutAt(part, x)
  }

  /** What a list of parts must be for the cuts to fall between them: no part has a cut of its own, and
      every part but the last closes its brackets. */
  predicate Clean(parts: seq<Bytes>) {
    && (forall j :: 0 <= j < |parts| ==> Whole(parts[j]))
    && (forall j :: 0 <= j < |parts| - 1 ==> Depth(NESTING, parts[j]) == 0)
  }

  /** No cut is missed and every cut is at depth 0. */
  lemma {:induction false} SplitIsClean(s: Bytes)
    ensures Clean(Split(s))
    decreases |s|
  {
    var c := NextCut(s, 0);
    if c < |s| {
      SplitIsClean(s[c + 1..]);
      forall x: nat | x < c ensures !CutAt(s[..c], x) {
        assert s[..c][..x] == s[..x] && !CutAt(s, x);
      }
    }
  }

  /** The other round trip, exactly: joined parts are split back into themselves when, and only when,
      they are clean. */
  lemma {:induction false} SplitOfJoin(parts: seq<Bytes>)
    requires parts != []
    ensures Split(Join(parts)) == parts <==> Clean(parts)
  {
    if Clean(parts) {
      CleanSplits(parts);
    } else {
      SplitIsClean(Join(parts));
    }
  }

  lemma {:induction false} CleanSplits(parts: seq<Bytes>)
    requires parts != [] && Clean(parts)
    ensures Split(Join(parts)) == parts
    decreases |parts|
  {
    hide Depth, Split;
    var part := parts[0];
    if |parts| == 1 {
      NoCutIsWhole(part);
    } else {
      var s, tail := Join(parts), Join(parts[1..]);
      CleanSplits(parts[1..]);
      assert s == part + ([COMMA] + tail);
      assert s[..|part|] == part;
      forall x: nat | x < |part| ensures !CutAt(s, x) {
        assert s[..x] == part[..x] && !CutAt(part, x);
      }
      CutSplits(s, |part|);
      assert s[|part| + 1..] == tail;
    }
  }

  // ---------------------------------------------------------------- the brackets as written

  lemma {:induction false} DepthOfThree(k: Brackets, a: Byte, b: Byte, c: Byte)
    ensures Depth(k, [a, b, c]) == Delta(k, a) + Delta(k, b) + Delta(k, c)
    ensures Depth(k, [a, b]) == Delta(k, a) + Delta(k, b)
    ensures Depth(k, [a]) == Delta(k, a)
  {
    assert [a, b, c][..2] == [a, b] && [a, b][..1] == [a] && [a][..0] == [];
    assert Depth(k, [a]) == Depth(k, [a][..0]) + Delta(k, a);
    assert Depth(k, [a, b]) == Depth(k, [a, b][..1]) + Delta(k, b);
  }

  /** Blocks are between { and }. */
  lemma {:induction false} BlockLiteral(block: Bytes)
    requires IsBlock(Ascii("(T[{{}},}"), block)
    ensures block == Ascii("{}")
  {
    hide IsBlock, Depth;
    var p, body, rest := Ascii("(T["), Ascii("{}"), Ascii(",}");
    assert p == [40, 84, 91] && body == [123, 125] && rest == [44, 125];
    assert Ascii("(T[{{}},}") == [40, 84, 91, 123, 123, 125, 125, 44, 125];
    assert Wrapped(p, body, rest) == Ascii("(T[{{}},}");
    DepthOfThree(BRACES, 123, 125, 0);
    DepthOfNothing(BRACES, body);
    assert body[..1] == [123] && body[..2] == body;
    BlockRoundTrip(p, body, rest, block);
  }

  /** Arguments are cut at commas outside ( ) and [ ]; braces do not count. */
  lemma {:induction false} SplitLiteral()
    ensures Split(Ascii("(,),[,],{,}")) == [Ascii("(,)"), Ascii("[,]"), Ascii("{"), Ascii("}")]
  {
    hide Depth, Split;
    var parts := [Ascii("(,)"), Ascii("[,]"), Ascii("{"), Ascii("}")];
    assert parts[0] == [40, 44, 41] && parts[1] == [91, 44, 93] && parts[2] == [123] && parts[3] == [125];
    DepthOfThree(NESTING, 40, 44, 41);
    DepthOfThree(NESTING, 91, 44, 93);
    DepthOfThree(NESTING, 123, 0, 0);
    DepthOfThree(NESTING, 125, 0, 0);
    forall j | 0 <= j < |parts| ensures Whole(parts[j]) {
      forall x: nat | x < |parts[j]| ensures !CutAt(parts[j], x) {
        if j < 2 && x == 1 {
          assert parts[j][..1] == [parts[j][0]];
        }
      }
    }
    CleanSplits(parts);
    assert parts[1..][1..] == parts[2..] && parts[2..][1..] == parts[3..];
    assert Join(parts[3..]) == [125];
    assert Join(parts[2..]) == [123, 44, 125];
    assert Join(parts[1..]) == [91, 44, 93, 44, 123, 44, 125];
    assert Join(parts) == [40, 44, 41, 44, 91, 44, 93, 44, 123, 44, 125];
    assert Join(parts) == Ascii("(,),[,],{,}");
  }
}
