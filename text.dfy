/** The three Go library string operations the core depends on: strings.ToLower,
    strings.Fields and strings.Join. Characters stand for the Unicode code points of a Go
    string; lower-casing is modelled for ASCII letters only. */
module Text {

  /** unicode.IsSpace, the separator test of strings.Fields. */
  predicate IsSpace(c: char): (b: bool)
    ensures b ==> !('0' <= c <= '9') && !('a' <= c <= 'z') && !('A' <= c <= 'Z')
    ensures c as int < 0x80 ==> (b <==> c == ' ' || '\t' <= c <= '\r')
  {
    c == ' ' || c == '\t' || c == '\n' || c == '\U{B}' || c == '\U{C}' || c == '\r'
    || c == '\U{85}' || c == '\U{A0}' || c == '\U{1680}'
    || ('\U{2000}' <= c <= '\U{200A}')
    || c == '\U{2028}' || c == '\U{2029}' || c == '\U{202F}' || c == '\U{205F}' || c == '\U{3000}'
  }

  predicate IsUpper(c: char) { 'A' <= c <= 'Z' }

  predicate IsLower(s: string) {
    forall i :: 0 <= i < |s| ==> !IsUpper(s[i])
  }

  /** A field of strings.Fields: non-empty and free of whitespace. */
  predicate IsWord(w: string) {
    |w| > 0 && forall i :: 0 <= i < |w| ==> !IsSpace(w[i])
  }

  function LowerChar(c: char): (d: char)
    ensures !IsUpper(d)
    ensures IsSpace(d) <==> IsSpace(c)
    ensures !IsUpper(c) ==> d == c
    ensures IsUpper(c) ==> d as int == c as int + 32
  {
    if IsUpper(c) then (c as int + 32) as char else c
  }

  /** strings.ToLower, restricted to ASCII letters. */
  function ToLower(s: string): (r: string)
    ensures |r| == |s|
    ensures IsLower(r)
    ensures forall i :: 0 <= i < |r| ==> (IsSpace(r[i]) <==> IsSpace(s[i]))
    ensures forall i :: 0 <= i < |s| && !IsUpper(s[i]) ==> r[i] == s[i]
    ensures forall i :: 0 <= i < |s| && IsUpper(s[i]) ==> r[i] as int == s[i] as int + 32
  {
    seq(|s|, i requires 0 <= i < |s| => LowerChar(s[i]))
  }

  /** What is left of s after its leading whitespace. */
  function SkipSpace(s: string): (r: string)
    ensures |r| <= |s| && r == s[|s| - |r|..]
    ensures r == [] || !IsSpace(r[0])
    ensures forall i :: 0 <= i < |s| - |r| ==> IsSpace(s[i])
  {
    if s != [] && IsSpace(s[0]) then SkipSpace(s[1..]) else s
  }

  /** The length of the longest whitespace-free prefix of s. */
  function WordLength(s: string): (n: nat)
    ensures n <= |s|
    ensures forall i :: 0 <= i < n ==> !IsSpace(s[i])
    ensures n == |s| || IsSpace(s[n])
  {
    if s != [] && !IsSpace(s[0]) then 1 + WordLength(s[1..]) else 0
  }

  /** strings.Fields: the maximal runs of non-whitespace characters, in order. */
  function Fields(s: string): (ws: seq<string>)
    ensures forall i :: 0 <= i < |ws| ==> IsWord(ws[i])
    decreases |s|
  {
    var t := SkipSpace(s);
    if t == [] then []
    else
      var n := WordLength(t);
      var rest := Fields(t[n..]);
      WordsCons(t[..n], rest);
      [t[..n]] + rest
  }

  lemma WordsCons(w: string, rest: seq<string>)
    requires |w| > 0 && forall i :: 0 <= i < |w| ==> !IsSpace(w[i])
    requires forall i :: 0 <= i < |rest| ==> IsWord(rest[i])
    ensures forall i :: 0 <= i < |rest| + 1 ==> IsWord(([w] + rest)[i])
  {
    forall i | 0 <= i < |rest| + 1 ensures IsWord(([w] + rest)[i]) {
      if i > 0 { assert ([w] + rest)[i] == rest[i - 1]; }
    }
  }

  /** strings.Join. */
  function Join(ws: seq<string>, sep: string): (r: string)
    ensures |ws| == 0 ==> r == ""
    ensures |ws| == 1 ==> r == ws[0]
    ensures |ws| > 0 ==> |r| >= |ws[0]| && r[..|ws[0]|] == ws[0]
    ensures |ws| > 0 ==> |r| >= |ws[|ws| - 1]| && r[|r| - |ws[|ws| - 1]|..] == ws[|ws| - 1]
    decreases |ws|
  {
    if |ws| == 0 then "" else if |ws| == 1 then ws[0] else ws[0] + sep + Join(ws[1..], sep)
  }

  /** The non-whitespace characters of s, in order. */
  function Ink(s: string): string
    decreases |s|
  {
    if s == [] then [] else (if IsSpace(s[0]) then [] else [s[0]]) + Ink(s[1..])
  }

  function Concat(ws: seq<string>): string
    decreases |ws|
  {
    if ws == [] then "" else ws[0] + Concat(ws[1..])
  }

  lemma {:induction false} InkAppend(a: string, b: string)
    ensures Ink(a + b) == Ink(a) + Ink(b)
    decreases |a|
  {
    if a == [] {
      assert a + b == b;
    } else {
      assert (a + b)[0] == a[0];
      assert (a + b)[1..] == a[1..] + b;
      InkAppend(a[1..], b);
    }
  }

  lemma {:induction false} InkOfSpaces(s: string)
    requires forall i :: 0 <= i < |s| ==> IsSpace(s[i])
    ensures Ink(s) == []
    decreases |s|
  {
    if s != [] { InkOfSpaces(s[1..]); }
  }

  lemma {:induction false} InkOfWord(s: string)
    requires forall i :: 0 <= i < |s| ==> !IsSpace(s[i])
    ensures Ink(s) == s
    decreases |s|
  {
    if s != [] { InkOfWord(s[1..]); }
  }

  /** Skipping leading whitespace loses no non-whitespace character. */
  lemma InkOfSkipSpace(s: string)
    ensures Ink(SkipSpace(s)) == Ink(s)
  {
    var t := SkipSpace(s);
    var pre := s[..|s| - |t|];
    assert s == pre + t;
    InkAppend(pre, t);
    InkOfSpaces(pre);
  }

  lemma InkOfFirstWord(t: string)
    requires t != [] && !IsSpace(t[0])
    ensures Ink(t) == t[..WordLength(t)] + Ink(t[WordLength(t)..])
  {
    var n := WordLength(t);
    assert t == t[..n] + t[n..];
    InkAppend(t[..n], t[n..]);
    InkOfWord(t[..n]);
  }

  lemma ConcatCons(w: string, rest: seq<string>)
    ensures Concat([w] + rest) == w + Concat(rest)
  {
    assert ([w] + rest)[1..] == rest;
  }

  /** The fields, glued together, are exactly the non-whitespace characters of s:
      strings.Fields loses only whitespace, and keeps the order. */
  lemma {:induction false} FieldsKeepInk(s: string)
    ensures Concat(Fields(s)) == Ink(s)
    decreases |s|
  {
    var t := SkipSpace(s);
    InkOfSkipSpace(s);
    if t != [] {
      var n := WordLength(t);
      InkOfFirstWord(t);
      FieldsKeepInk(t[n..]);
      ConcatCons(t[..n], Fields(t[n..]));
    }
  }

  lemma {:induction false} WordLengthOfWord(w: string, x: string)
    requires forall i :: 0 <= i < |w| ==> !IsSpace(w[i])
    requires x == [] || IsSpace(x[0])
    ensures WordLength(w + x) == |w|
    decreases |w|
  {
    if w != [] {
      assert (w + x)[1..] == w[1..] + x;
      WordLengthOfWord(w[1..], x);
    }
  }

  lemma FieldsOfWordThen(w: string, x: string)
    requires IsWord(w)
    requires x == [] || IsSpace(x[0])
    ensures Fields(w + x) == [w] + Fields(x)
  {
    WordLengthOfWord(w, x);
    var s := w + x;
    assert SkipSpace(s) == s;
    assert s[..|w|] == w && s[|w|..] == x;
  }

  lemma FieldsOfSpaceThen(x: string)
    ensures Fields(" " + x) == Fields(x)
  {
    var a := " " + x;
    assert a[0] == ' ' && a[1..] == x;
    assert SkipSpace(a) == SkipSpace(x);
    SameSkipSameFields(a, x);
  }

  /** Fields only looks at what is left after the leading whitespace. */
  lemma SameSkipSameFields(a: string, b: string)
    requires SkipSpace(a) == SkipSpace(b)
    ensures Fields(a) == Fields(b)
  {
  }

  lemma JoinCons(ws: seq<string>, sep: string)
    requires |ws| > 1
    ensures Join(ws, sep) == ws[0] + (sep + Join(ws[1..], sep))
  {
    assert ws[0] + sep + Join(ws[1..], sep) == ws[0] + (sep + Join(ws[1..], sep));
  }

  /** Join distributes over concatenation, with one separator at the seam: with the
      one-word and no-word cases this determines Join. */
  lemma {:induction false} JoinAppend(xs: seq<string>, ys: seq<string>, sep: string)
    requires xs != [] && ys != []
    ensures Join(xs + ys, sep) == Join(xs, sep) + sep + Join(ys, sep)
    decreases |xs|
  {
    var zs := xs + ys;
    assert zs[0] == xs[0];
    JoinCons(zs, sep);
    if |xs| == 1 {
      assert zs[1..] == ys;
    } else {
      assert zs[1..] == xs[1..] + ys;
      JoinAppend(xs[1..], ys, sep);
      JoinCons(xs, sep);
      Regroup(xs[0], sep, Join(xs[1..] + ys, sep), Join(xs[1..], sep), Join(ys, sep));
    }
  }

  lemma Regroup(w: string, sep: string, t: string, a: string, b: string)
    requires t == a + sep + b
    ensures w + (sep + t) == (w + (sep + a)) + sep + b
  {
  }

  /** Whitespace in s is single spaces between non-whitespace characters. */
  predicate SingleSpaced(s: string) {
    forall i :: 0 <= i < |s| && IsSpace(s[i]) ==> s[i] == ' ' && 0 < i < |s| - 1 && !IsSpace(s[i - 1])
  }

  /** Words joined by " " are single-spaced. */
  lemma {:induction false} JoinSingleSpaced(ws: seq<string>)
    requires forall i :: 0 <= i < |ws| ==> IsWord(ws[i])
    ensures SingleSpaced(Join(ws, " "))
    decreases |ws|
  {
    if |ws| == 1 {
      assert IsWord(ws[0]);
    } else if |ws| > 1 {
      var w, rest := ws[0], ws[1..];
      assert IsWord(w) && IsWord(rest[0]);
      assert forall i :: 0 <= i < |rest| ==> IsWord(rest[i]) by {
        forall i | 0 <= i < |rest| ensures IsWord(rest[i]) { assert rest[i] == ws[i + 1]; }
      }
      JoinSingleSpaced(rest);
      JoinCons(ws, " ");
      SpacedCons(w, Join(rest, " "));
    }
  }

  lemma SpacedCons(w: string, x: string)
    requires IsWord(w) && x != [] && !IsSpace(x[0]) && SingleSpaced(x)
    ensures SingleSpaced(w + (" " + x))
  {
    var s := w + (" " + x);
    forall i | 0 <= i < |s| && IsSpace(s[i]) ensures s[i] == ' ' && 0 < i < |s| - 1 && !IsSpace(s[i - 1]) {
      if i > |w| {
        var k := i - |w| - 1;
        assert s[i] == x[k];
        if k > 0 { assert s[i - 1] == x[k - 1]; }
      }
    }
  }

  /** A single-spaced string is its own fields joined by " ". */
  lemma {:induction false} SingleSpacedIsJoin(s: string)
    requires SingleSpaced(s)
    ensures s == Join(Fields(s), " ")
    decreases |s|
  {
    if s != [] {
      var n := WordLength(s);
      assert !IsSpace(s[0]);
      if n == |s| {
        FieldsOfWord(s);
      } else {
        var w, x := s[..n], s[n + 1..];
        assert s[n] == ' ' && n < |s| - 1;
        assert s == w + (" " + x);
        assert IsWord(w);
        assert !IsSpace(x[0]) by { assert x[0] == s[n + 1]; }
        SpacedSuffix(s, n + 1);
        SingleSpacedIsJoin(x);
        FieldsOfWordSpaceThen(w, x);
        assert Fields(x) != [] by { assert SkipSpace(x) == x; }
        JoinCons([w] + Fields(x), " ");
        assert ([w] + Fields(x))[1..] == Fields(x);
      }
    }
  }

  lemma SpacedSuffix(s: string, k: nat)
    requires SingleSpaced(s) && k < |s| && !IsSpace(s[k])
    ensures SingleSpaced(s[k..])
  {
    var x := s[k..];
    forall i | 0 <= i < |x| && IsSpace(x[i]) ensures x[i] == ' ' && 0 < i < |x| - 1 && !IsSpace(x[i - 1]) {
      assert x[i] == s[k + i];
      if i > 0 { assert x[i - 1] == s[k + i - 1]; }
    }
  }

  lemma FieldsOfWordSpaceThen(w: string, x: string)
    requires IsWord(w)
    ensures Fields(w + (" " + x)) == [w] + Fields(x)
  {
    assert (" " + x)[0] == ' ';
    FieldsOfWordThen(w, " " + x);
    FieldsOfSpaceThen(x);
  }

  lemma FieldsOfWord(w: string)
    requires IsWord(w)
    ensures Fields(w) == [w]
  {
    assert w + [] == w;
    FieldsOfWordThen(w, []);
  }

  /** Splitting words joined with single spaces gives the words back. */
  lemma {:induction false} FieldsOfJoin(ws: seq<string>)
    requires forall i :: 0 <= i < |ws| ==> IsWord(ws[i])
    ensures Fields(Join(ws, " ")) == ws
    decreases |ws|, 1
  {
    if |ws| == 1 {
      FieldsOfWord(ws[0]);
    } else if |ws| > 1 {
      FieldsOfJoinCons(ws);
    }
  }

  lemma {:induction false} FieldsOfJoinCons(ws: seq<string>)
    requires |ws| > 1
    requires forall i :: 0 <= i < |ws| ==> IsWord(ws[i])
    ensures Fields(Join(ws, " ")) == ws
    decreases |ws|, 0
  {
    var w, rest := ws[0], ws[1..];
    assert ws == [w] + rest;
    assert IsWord(w);
    assert forall i :: 0 <= i < |rest| ==> IsWord(rest[i]) by {
      forall i | 0 <= i < |rest| ensures IsWord(rest[i]) { assert rest[i] == ws[i + 1]; }
    }
    JoinCons(ws, " ");
    FieldsOfWordSpaceThen(w, Join(rest, " "));
    FieldsOfJoin(rest);
  }

  lemma SuffixLower(s: string, k: nat)
    requires IsLower(s) && k <= |s|
    ensures IsLower(s[k..])
  {
    forall i | 0 <= i < |s| - k ensures !IsUpper(s[k..][i]) { assert s[k..][i] == s[k + i]; }
  }

  lemma PrefixLower(s: string, k: nat)
    requires IsLower(s) && k <= |s|
    ensures IsLower(s[..k])
  {
    forall i | 0 <= i < k ensures !IsUpper(s[..k][i]) { assert s[..k][i] == s[i]; }
  }

  /** Every field of a string without upper-case letters is itself free of them. */
  lemma {:induction false} FieldsOfLower(s: string)
    requires IsLower(s)
    ensures forall i :: 0 <= i < |Fields(s)| ==> IsLower(Fields(s)[i])
    decreases |s|, 1
  {
    var t := SkipSpace(s);
    if t != [] {
      FieldsOfLowerCons(s);
    }
  }

  lemma {:induction false} FieldsOfLowerCons(s: string)
    requires IsLower(s) && SkipSpace(s) != []
    ensures forall i :: 0 <= i < |Fields(s)| ==> IsLower(Fields(s)[i])
    decreases |s|, 0
  {
    var t := SkipSpace(s);
    var n := WordLength(t);
    SuffixLower(s, |s| - |t|);
    SuffixLower(t, n);
    PrefixLower(t, n);
    FieldsOfLower(t[n..]);
    var w, rest := t[..n], Fields(t[n..]);
    assert Fields(s) == [w] + rest;
    forall i | 0 <= i < |rest| + 1 ensures IsLower(([w] + rest)[i]) {
      if i > 0 { assert ([w] + rest)[i] == rest[i - 1]; }
    }
  }
}
