/** Python string primitives the tree generator relies on: strip, lower,
    substring containment, split/join on one separator character and the
    first/last-separator splits used when a reply line is parsed. */
module Text {

  datatype Option<+T> = None | Some(value: T)

  /** The characters Python's str.isspace() accepts. */
  predicate IsSpace(c: char) {
    c == ' ' || c == '\t' || c == '\n' || c == '\r' || c == '\U{0B}' || c == '\U{0C}'
    || ('\U{1C}' <= c <= '\U{1F}') || c == '\U{85}' || c == '\U{A0}' || c == '\U{1680}'
    || ('\U{2000}' <= c <= '\U{200A}') || c == '\U{2028}' || c == '\U{2029}'
    || c == '\U{202F}' || c == '\U{205F}' || c == '\U{3000}'
  }

  /** str.lstrip() with no argument. */
  function LStrip(s: string): (r: string)
    ensures |r| <= |s|
  {
    if s != [] && IsSpace(s[0]) then LStrip(s[1..]) else s
  }

  /** str.rstrip() with no argument. */
  function RStrip(s: string): (r: string)
    ensures |r| <= |s|
  {
    if s != [] && IsSpace(s[|s| - 1]) then RStrip(s[..|s| - 1]) else s
  }

  /** str.strip() with no argument. */
  function Strip(s: string): string {
    RStrip(LStrip(s))
  }

  lemma {:induction false} LStripFacts(s: string)
    ensures LStrip(s) == s[|s| - |LStrip(s)|..]
    ensures LStrip(s) == [] || !IsSpace(LStrip(s)[0])
    ensures forall i :: 0 <= i < |s| - |LStrip(s)| ==> IsSpace(s[i])
    decreases |s|
  {
    if s != [] && IsSpace(s[0]) {
      LStripFacts(s[1..]);
    }
  }

  lemma {:induction false} RStripFacts(s: string)
    ensures RStrip(s) == s[..|RStrip(s)|]
    ensures RStrip(s) == [] || !IsSpace(RStrip(s)[|RStrip(s)| - 1])
    ensures forall i :: |RStrip(s)| <= i < |s| ==> IsSpace(s[i])
    decreases |s|
  {
    if s != [] && IsSpace(s[|s| - 1]) {
      RStripFacts(s[..|s| - 1]);
    }
  }

  lemma {:induction false} LStripKeeps(s: string, c: char)
    ensures c in LStrip(s) ==> c in s
    ensures c in s && !IsSpace(c) ==> c in LStrip(s)
    decreases |s|
  {
    if s != [] && IsSpace(s[0]) {
      LStripKeeps(s[1..], c);
      assert s == [s[0]] + s[1..];
    }
  }

  lemma {:induction false} RStripKeeps(s: string, c: char)
    ensures c in RStrip(s) ==> c in s
    ensures c in s && !IsSpace(c) ==> c in RStrip(s)
    decreases |s|
  {
    if s != [] && IsSpace(s[|s| - 1]) {
      RStripKeeps(s[..|s| - 1], c);
      assert s == s[..|s| - 1] + [s[|s| - 1]];
    }
  }

  /** Stripping only removes whitespace: every other character survives, and
      nothing new appears. */
  lemma StripKeeps(s: string, c: char)
    ensures c in Strip(s) ==> c in s
    ensures c in s && !IsSpace(c) ==> c in Strip(s)
  {
    LStripKeeps(s, c);
    RStripKeeps(LStrip(s), c);
  }

  /** `not s or not s.strip()`: empty or whitespace only. */
  predicate Blank(s: string) {
    Strip(s) == []
  }

  lemma {:induction false} BlankIffAllSpace(s: string)
    ensures Blank(s) <==> forall i :: 0 <= i < |s| ==> IsSpace(s[i])
  {
    var l := LStrip(s);
    LStripFacts(s);
    RStripFacts(l);
    if !Blank(s) {
      assert s[|s| - |l|] == l[0];
    }
  }

  /** str.lstrip(chars): drop leading characters that belong to `chars`. */
  function LStripChars(s: string, chars: set<char>): (r: string)
    ensures |r| <= |s|
    ensures r == [] || r[0] !in chars
  {
    if s != [] && s[0] in chars then LStripChars(s[1..], chars) else s
  }

  lemma {:induction false} LStripCharsKeeps(s: string, chars: set<char>, c: char)
    requires c in s && c !in chars
    ensures c in LStripChars(s, chars)
    decreases |s|
  {
    if s[0] in chars {
      assert c in s[1..] by { var k :| 0 <= k < |s| && s[k] == c; assert k > 0 && s[1..][k - 1] == c; }
      LStripCharsKeeps(s[1..], chars, c);
    }
  }

  /** ASCII case mapping of str.lower(). */
  function LowerChar(c: char): char {
    if 'A' <= c <= 'Z' then (c as int + 32) as char else c
  }

  function ToLower(s: string): (r: string)
    ensures |r| == |s|
    ensures forall i :: 0 <= i < |s| ==> r[i] == LowerChar(s[i])
  {
    seq(|s|, i requires 0 <= i < |s| => LowerChar(s[i]))
  }

  lemma ToLowerConcat(a: string, b: string)
    ensures ToLower(a + b) == ToLower(a) + ToLower(b)
  {
    assert forall i :: 0 <= i < |a + b| ==> ToLower(a + b)[i] == (ToLower(a) + ToLower(b))[i];
  }

  /** `w in s` for strings: w occurs in s as a contiguous run. */
  predicate Contains(s: string, w: string)
    decreases |s|
  {
    w <= s || (s != [] && Contains(s[1..], w))
  }

  lemma {:induction false} ContainsAt(s: string, w: string, i: nat)
    requires i + |w| <= |s| && s[i..i + |w|] == w
    ensures Contains(s, w)
  {
    if i > 0 {
      assert s[1..][i - 1..i - 1 + |w|] == w;
      ContainsAt(s[1..], w, i - 1);
    }
  }

  lemma {:induction false} ContainsWitness(s: string, w: string) returns (i: nat)
    requires Contains(s, w)
    ensures i + |w| <= |s| && s[i..i + |w|] == w
    decreases |s|
  {
    if w <= s {
      i := 0;
    } else {
      var j := ContainsWitness(s[1..], w);
      i := j + 1;
      assert s[i..i + |w|] == s[1..][j..j + |w|];
    }
  }

  /** A run of `w` in `s` stays a run of `w` in any extension of `s`. */
  lemma ContainsExtend(a: string, s: string, b: string, w: string)
    requires Contains(s, w)
    ensures Contains(a + s + b, w)
  {
    var i := ContainsWitness(s, w);
    assert (a + s + b)[|a| + i..|a| + i + |w|] == s[i..i + |w|];
    ContainsAt(a + s + b, w, |a| + i);
  }

  lemma {:induction false} ContainsCharIff(s: string, c: char)
    ensures Contains(s, [c]) <==> c in s
    decreases |s|
  {
    if s != [] {
      ContainsCharIff(s[1..], c);
      assert s == [s[0]] + s[1..];
    }
  }

  /** Index of the first occurrence of c. */
  function IndexOf(s: string, c: char): (i: nat)
    requires c in s
    ensures i < |s| && s[i] == c && c !in s[..i]
  {
    if s[0] == c then 0 else IndexOf(s[1..], c) + 1
  }

  /** Index of the last occurrence of c. */
  function LastIndexOf(s: string, c: char): (i: nat)
    requires c in s
    ensures i < |s| && s[i] == c && c !in s[i + 1..]
  {
    if s[|s| - 1] == c then |s| - 1
    else
      assert c in s[..|s| - 1] by { var k :| 0 <= k < |s| && s[k] == c; assert s[..|s| - 1][k] == c; }
      LastIndexOf(s[..|s| - 1], c)
  }

  /** No occurrence of c lies after the last one. */
  lemma {:induction false} LastIndexOfBound(s: string, c: char, m: nat)
    requires m < |s| && s[m] == c
    ensures m <= LastIndexOf(s, c)
    decreases |s|
  {
    if s[|s| - 1] != c {
      assert s[..|s| - 1][m] == c;
      LastIndexOfBound(s[..|s| - 1], c, m);
    }
  }

  /** `s.split(c)[0]`: everything before the first c (all of s without one). */
  function BeforeFirst(s: string, c: char): (r: string)
    ensures r <= s && c !in r
    ensures c in s ==> |r| < |s| && s[|r|] == c
  {
    if c in s then s[..IndexOf(s, c)] else s
  }

  /** `s.rsplit(c, 1)[0]`: everything before the last c (all of s without one). */
  function BeforeLast(s: string, c: char): (r: string)
    ensures r <= s
    ensures c in s ==> |r| < |s| && s[|r|] == c && c !in s[|r| + 1..]
  {
    if c in s then s[..LastIndexOf(s, c)] else s
  }

  /** The two splits agree exactly when the separator occurs at most once. */
  lemma SplitsAgreeOnSingleSeparator(s: string, c: char)
    ensures BeforeFirst(s, c) == BeforeLast(s, c)
        <==> (c !in s || c !in s[IndexOf(s, c) + 1..])
  {
    if c in s {
      var i, j := IndexOf(s, c), LastIndexOf(s, c);
      if BeforeFirst(s, c) == BeforeLast(s, c) {
        assert i == j;
      }
    }
  }

  /** `s.split(c)` with an explicit separator character. */
  function Split(s: string, c: char): (r: seq<string>)
    ensures |r| >= 1
  {
    if s == [] then [[]]
    else if s[0] == c then [[]] + Split(s[1..], c)
    else
      var rest := Split(s[1..], c);
      [[s[0]] + rest[0]] + rest[1..]
  }

  /** No piece of a split holds the separator. */
  lemma {:induction false} SplitPieces(s: string, c: char)
    ensures forall k :: 0 <= k < |Split(s, c)| ==> c !in Split(s, c)[k]
  {
    if s != [] {
      SplitPieces(s[1..], c);
    }
  }

  /** `sep.join(parts)` with a one-character separator. */
  function Join(parts: seq<string>, c: char): string {
    if |parts| == 0 then []
    else if |parts| == 1 then parts[0]
    else parts[0] + [c] + Join(parts[1..], c)
  }

  /** The total length of the parts. */
  function TotalLength(parts: seq<string>): nat {
    if parts == [] then 0 else |parts[0]| + TotalLength(parts[1..])
  }

  /** A join starts with the first part and adds one separator between
      neighbouring parts, whatever the parts hold. */
  lemma {:induction false} JoinFacts(parts: seq<string>, c: char)
    requires |parts| >= 1
    ensures parts[0] <= Join(parts, c)
    ensures |Join(parts, c)| == TotalLength(parts) + |parts| - 1
  {
    if |parts| > 1 {
      JoinFacts(parts[1..], c);
    } else {
      assert parts[1..] == [];
    }
  }

  lemma {:induction false} JoinSplit(s: string, c: char)
    ensures Join(Split(s, c), c) == s
  {
    if s != [] {
      JoinSplit(s[1..], c);
      var rest := Split(s[1..], c);
      if s[0] != c {
        if |rest| > 1 {
          assert Split(s, c)[1..] == rest[1..];
          assert s == [s[0]] + s[1..];
        }
      } else {
        assert Split(s, c)[1..] == rest;
        assert s == [c] + s[1..];
      }
    }
  }

  lemma {:induction false} SplitJoinHead(p: string, rest: seq<string>, c: char)
    requires c !in p && |rest| >= 1
    ensures Split(p + [c] + Join(rest, c), c) == [p] + Split(Join(rest, c), c)
    decreases |p|
  {
    if p == [] {
      assert p + [c] + Join(rest, c) == [c] + Join(rest, c);
    } else {
      SplitJoinHead(p[1..], rest, c);
      assert (p + [c] + Join(rest, c))[1..] == p[1..] + [c] + Join(rest, c);
      assert [p[0]] + p[1..] == p;
    }
  }

  lemma {:induction false} SplitJoin(parts: seq<string>, c: char)
    requires |parts| >= 1
    requires forall k :: 0 <= k < |parts| ==> c !in parts[k]
    ensures Split(Join(parts, c), c) == parts
  {
    if |parts| == 1 {
      SplitNoSeparator(parts[0], c);
    } else {
      SplitJoin(parts[1..], c);
      SplitJoinHead(parts[0], parts[1..], c);
    }
  }

  lemma {:induction false} SplitNoSeparator(s: string, c: char)
    requires c !in s
    ensures Split(s, c) == [s]
  {
    if s != [] {
      assert c !in s[1..] by { assert forall k :: 0 <= k < |s[1..]| ==> s[1..][k] == s[k + 1]; }
      SplitNoSeparator(s[1..], c);
      assert s == [s[0]] + s[1..];
    }
  }

  /** `'> ' * depth`. */
  function Indent(depth: nat): (r: string)
    ensures |r| == 2 * depth
  {
    if depth == 0 then [] else "> " + Indent(depth - 1)
  }

  lemma {:induction false} IndentPrefix(d: nat, e: nat)
    requires d <= e
    ensures Indent(d) <= Indent(e)
  {
    if d > 0 {
      IndentPrefix(d - 1, e - 1);
    }
  }

  /** Loop-step facts about accumulating a sequence, stated for any element
      type so that the solver need not look inside the elements. */
  lemma AppendStep<T>(acc: seq<T>, piece: seq<T>, rest: seq<T>, whole: seq<T>)
    requires acc + (piece + rest) == whole
    ensures (acc + piece) + rest == whole
  {
    assert acc + (piece + rest) == (acc + piece) + rest;
  }

  lemma FilterStep<T>(acc: seq<T>, keep: bool, x: T, rest: seq<T>, whole: seq<T>)
    requires acc + ((if keep then [x] else []) + rest) == whole
    ensures (if keep then acc + [x] else acc) + rest == whole
  {
    if keep {
      assert acc + ([x] + rest) == (acc + [x]) + rest;
    } else {
      assert [] + rest == rest;
    }
  }
}
