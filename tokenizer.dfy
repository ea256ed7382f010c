/** The word tokenizer of tokenizer.go: the lower-cased, whitespace-split source text is
    consumed from the front by five recognisers tried in a fixed order. */
module Tokenize {
  import opened Text

  /** TokenTypeCourseCode .. TokenTypeAll. */
  datatype TokenType = CourseCode | Prereq | Correq | Any | All

  /** Val is only set for course codes. */
  datatype Token = Token(ttype: TokenType, val: string)

  /** Go's zero value Token{}, returned with false by every recogniser that fails. */
  const NoToken := Token(CourseCode, "")

  /** The keys of isLowerCaseCourseCode. */
  const Subjects: set<string> := {"cosc", "engl", "math", "phys"}

  /** unicode.IsDigit applied to one byte: exactly the ASCII digits. */
  predicate IsDigit(c: char): (b: bool)
    ensures b ==> !IsSpace(c) && LowerChar(c) == c
  {
    '0' <= c <= '9'
  }

  predicate HasDigit(s: string) {
    exists i :: 0 <= i < |s| && IsDigit(s[i])
  }

  /** The course number left once every trailing non-digit is cut off: the longest
      prefix of code that ends in a digit, or "" when code has no digit at all. */
  function StripCode(code: string): (r: string)
    ensures |r| <= |code| && r == code[..|r|]
    ensures r == [] || IsDigit(r[|r| - 1])
    ensures forall i :: |r| <= i < |code| ==> !IsDigit(code[i])
    ensures r == [] <==> !HasDigit(code)
  {
    if code == [] || IsDigit(code[|code| - 1]) then code else StripCode(code[..|code| - 1])
  }

  /** What a recogniser does to the remaining words: nothing, consume a prefix and emit
      a token, or (parseAny and parseAll) index one past the end. */
  datatype Match = NoMatch | Matched(tok: Token, rest: seq<string>) | Fault

  /** parseCourseCode. */
  function MatchCourseCode(words: seq<string>): (m: Match)
    ensures !m.Fault?
    ensures m.Matched? <==> |words| >= 2 && words[0] in Subjects && HasDigit(words[1])
    ensures m.Matched? ==> m.rest == words[2..]
    ensures m.Matched? ==> m.tok == Token(CourseCode, words[0] + "_" + StripCode(words[1]))
  {
    if |words| >= 2 && words[0] in Subjects then
      var code := StripCode(words[1]);
      if |code| == 0 then NoMatch else Matched(Token(CourseCode, words[0] + "_" + code), words[2..])
    else NoMatch
  }

  /** parsePrereq. */
  function MatchPrereq(words: seq<string>): (m: Match)
    ensures !m.Fault?
    ensures m.Matched? <==> |words| >= 1 && words[0] == "prerequisite:"
    ensures m.Matched? ==> m.tok == Token(Prereq, "") && m.rest == words[1..]
  {
    if |words| >= 1 && words[0] == "prerequisite:" then Matched(Token(Prereq, ""), words[1..]) else NoMatch
  }

  /** parseCorreq: the token it emits is tagged Prereq, not Correq. */
  function MatchCorreq(words: seq<string>): (m: Match)
    ensures !m.Fault?
    ensures m.Matched? <==> |words| >= 1 && words[0] == "correquisite:"
    ensures m.Matched? ==> m.tok == Token(Prereq, "") && m.rest == words[1..]
  {
    if |words| >= 1 && words[0] == "correquisite:" then Matched(Token(Prereq, ""), words[1..]) else NoMatch
  }

  /** parseAny: after "one" it reads the next word without checking that there is one. */
  function MatchAny(words: seq<string>): (m: Match)
    ensures m.Fault? <==> words == ["one"]
    ensures m.Matched? <==> |words| >= 2 && words[0] == "one" && words[1] == "of"
    ensures m.Matched? ==> m.tok == Token(Any, "") && m.rest == words[1..] && m.rest[0] == "of"
  {
    if |words| >= 1 && words[0] == "one" then
      if |words| < 2 then Fault
      else if words[1] == "of" then Matched(Token(Any, ""), words[1..])
      else NoMatch
    else NoMatch
  }

  /** parseAll: the same shape as parseAny, for "all of". */
  function MatchAll(words: seq<string>): (m: Match)
    ensures m.Fault? <==> words == ["all"]
    ensures m.Matched? <==> |words| >= 2 && words[0] == "all" && words[1] == "of"
    ensures m.Matched? ==> m.tok == Token(All, "") && m.rest == words[1..] && m.rest[0] == "of"
  {
    if |words| >= 1 && words[0] == "all" then
      if |words| < 2 then Fault
      else if words[1] == "of" then Matched(Token(All, ""), words[1..])
      else NoMatch
    else NoMatch
  }

  /** The recognisers in NextToken's order; the first that does not fail decides. */
  function Recognize(words: seq<string>): (m: Match)
    ensures m.Fault? <==> words == ["one"] || words == ["all"]
    ensures m.Matched? ==> |m.rest| < |words| && m.rest == words[|words| - |m.rest|..]
    ensures m.Matched? ==> m.tok.ttype != Correq
    ensures m.Matched? && words[|words| - 1] in {"one", "all"} ==> m.rest != []
    ensures m.Matched? && m.tok.ttype in {Any, All} ==> m.rest != [] && m.rest[0] == "of"
    ensures m.NoMatch? <==> MatchCourseCode(words).NoMatch? && MatchPrereq(words).NoMatch?
                            && MatchCorreq(words).NoMatch? && MatchAny(words).NoMatch?
                            && MatchAll(words).NoMatch?
  {
    var c := MatchCourseCode(words);
    if !c.NoMatch? then c else
    var p := MatchPrereq(words);
    if !p.NoMatch? then p else
    var q := MatchCorreq(words);
    if !q.NoMatch? then q else
    var a := MatchAny(words);
    if !a.NoMatch? then a else
    MatchAll(words)
  }

  /** The five recognisers applied to the same words, in NextToken's order. */
  function Recognizers(words: seq<string>): seq<Match> {
    [MatchCourseCode(words), MatchPrereq(words), MatchCorreq(words), MatchAny(words), MatchAll(words)]
  }

  /** The recognisers look at disjoint first words, so at most one of them does not fail,
      and the chain returns that one: the order of the chain does not matter. */
  lemma RecognizersDisjoint(words: seq<string>)
    ensures forall i, j :: 0 <= i < j < 5 && !Recognizers(words)[i].NoMatch? ==> Recognizers(words)[j].NoMatch?
    ensures forall i :: 0 <= i < 5 && !Recognizers(words)[i].NoMatch? ==> Recognize(words) == Recognizers(words)[i]
  {
  }

  /** The result of one NextToken call. */
  datatype Outcome = Exhausted | Emit(tok: Token, rest: seq<string>) | Faulted

  /** NextToken as a function of the remaining words: words no recogniser accepts are
      dropped one at a time until one matches, a recogniser faults, or nothing is left. */
  function Next(words: seq<string>): (r: Outcome)
    ensures r.Emit? ==> |r.rest| < |words| && r.rest == words[|words| - |r.rest|..]
    ensures r.Emit? ==> r.tok.ttype != Correq
    ensures r.Emit? && r.tok.ttype in {Any, All} ==> r.rest != [] && r.rest[0] == "of"
    ensures r.Faulted? ==> |words| > 0 && words[|words| - 1] in {"one", "all"}
    ensures |words| > 0 && words[|words| - 1] in {"one", "all"} ==> r.Faulted? || (r.Emit? && r.rest != [])
    decreases |words|
  {
    if |words| == 0 then Exhausted
    else match Recognize(words)
      case Matched(tok, rest) => Emit(tok, rest)
      case Fault => Faulted
      case NoMatch => Next(words[1..])
  }

  lemma NextOfMatch(words: seq<string>)
    requires |words| > 0 && Recognize(words).Matched?
    ensures Next(words) == Emit(Recognize(words).tok, Recognize(words).rest)
  {
  }

  lemma NextOfNoMatch(words: seq<string>)
    requires |words| > 0 && Recognize(words).NoMatch?
    ensures Next(words) == Next(words[1..])
  {
  }

  /** Next does not fault only if parseAny and parseAll are never reached with one word. */
  lemma NoFaultBeforeAny(words: seq<string>)
    requires |words| > 0 && !Next(words).Faulted?
    ensures words != ["one"] && words != ["all"]
  {
  }

  /** Calling NextToken until it returns false never indexes past the end of the words. */
  predicate Drains(words: seq<string>)
    decreases |words|
  {
    match Next(words)
    case Exhausted => true
    case Faulted => false
    case Emit(_, rest) => Drains(rest)
  }

  lemma TokensEnd(words: seq<string>)
    requires EndsSafely(words) && !Next(words).Emit?
    ensures Tokens(words) == []
  {
  }

  /** The last word is what decides whether a tokenizer can be drained. */
  predicate EndsSafely(words: seq<string>) {
    |words| == 0 || words[|words| - 1] !in {"one", "all"}
  }

  /** The token stream a tokenizer over words produces before NextToken returns false. */
  function Tokens(words: seq<string>): (toks: seq<Token>)
    requires EndsSafely(words)
    ensures |toks| <= |words|
    ensures forall i :: 0 <= i < |toks| ==> toks[i].ttype != Correq
    decreases |words|
  {
    match Next(words)
    case Exhausted => []
    case Emit(tok, rest) => [tok] + Tokens(rest)
  }

  lemma TokensCons(words: seq<string>)
    requires EndsSafely(words) && Next(words).Emit?
    ensures EndsSafely(Next(words).rest)
    ensures Tokens(words) == [Next(words).tok] + Tokens(Next(words).rest)
  {
  }

  /** Draining faults exactly when the text ends in "one" or "all": words only ever leave
      from the front, and such a last word can neither be consumed as a course number
      nor followed by "of", so it ends up alone in front of parseAny or parseAll. */
  lemma {:induction false} DrainsIff(words: seq<string>)
    ensures Drains(words) <==> EndsSafely(words)
    decreases |words|
  {
    match Next(words)
    case Exhausted =>
    case Faulted =>
    case Emit(_, rest) =>
      DrainsIff(rest);
  }

  /** NextToken discards the words in front of the first position where a recogniser
      matches and returns what that recogniser returns. */
  lemma {:induction false} NextFindsFirstMatch(words: seq<string>, k: nat)
    requires k < |words|
    requires forall j :: 0 <= j < k ==> Recognize(words[j..]).NoMatch?
    requires Recognize(words[k..]).Matched?
    ensures Next(words) == Emit(Recognize(words[k..]).tok, Recognize(words[k..]).rest)
    decreases k
  {
    if k > 0 {
      assert Recognize(words[0..]).NoMatch?;
      assert words[0..] == words;
      forall j | 0 <= j < k - 1 ensures Recognize(words[1..][j..]).NoMatch? {
        assert words[1..][j..] == words[j + 1..];
      }
      assert words[1..][k - 1..] == words[k..];
      NextFindsFirstMatch(words[1..], k - 1);
    } else {
      assert words[0..] == words;
    }
  }

  /** A known subject followed by a number with a digit is always read as one course code,
      whatever follows. */
  lemma CourseCodeRead(words: seq<string>)
    requires |words| >= 2 && words[0] in Subjects && HasDigit(words[1])
    ensures Next(words) == Emit(Token(CourseCode, words[0] + "_" + StripCode(words[1])), words[2..])
  {
  }

  /** Digits followed by non-digits after a subject give the subject and the digits. */
  lemma {:induction false} CourseCodeNormalised(subject: string, digits: string, tail: string)
    requires subject in Subjects
    requires digits != [] && IsDigit(digits[|digits| - 1])
    requires forall i :: 0 <= i < |tail| ==> !IsDigit(tail[i])
    ensures EndsSafely([subject, digits + tail])
      && Tokens([subject, digits + tail]) == [Token(CourseCode, subject + "_" + digits)]
  {
    StripOfTail(digits, tail);
    var ws := [subject, digits + tail];
    assert (digits + tail)[|digits| - 1] == digits[|digits| - 1];
    assert HasDigit(digits + tail);
    assert Next(ws) == Emit(Token(CourseCode, subject + "_" + digits), []);
    assert Next([]) == Exhausted;
  }

  lemma {:induction false} StripOfTail(digits: string, tail: string)
    requires digits != [] && IsDigit(digits[|digits| - 1])
    requires forall i :: 0 <= i < |tail| ==> !IsDigit(tail[i])
    ensures StripCode(digits + tail) == digits
    decreases |tail|
  {
    if tail == [] {
      assert digits + tail == digits;
    } else {
      var t := tail[..|tail| - 1];
      assert (digits + tail)[..|digits + tail| - 1] == digits + t;
      StripOfTail(digits, t);
    }
  }

  /** A subject followed by a word without digits is not a course code, and neither word
      is recognised as anything else: "cosc abcdef" gives no token. */
  lemma NoDigitNoToken(subject: string, word: string)
    requires subject in Subjects && !HasDigit(word)
    requires word !in {"prerequisite:", "correquisite:", "one", "all"}
    ensures Tokens([subject, word]) == []
  {
    var ws := [subject, word];
    assert Recognize(ws) == NoMatch;
    assert ws[1..] == [word];
    assert Recognize([word]) == NoMatch;
    assert [word][1..] == [];
    assert Next([word]) == Exhausted;
    assert Next(ws) == Exhausted;
  }

  /** A course mention at the front becomes one CourseCode token. */
  lemma TokensOfCourseCode(subject: string, number: string, rest: seq<string>)
    requires subject in Subjects && HasDigit(number) && EndsSafely(rest)
    ensures EndsSafely([subject, number] + rest)
    ensures Tokens([subject, number] + rest)
         == [Token(CourseCode, subject + "_" + StripCode(number))] + Tokens(rest)
  {
    var w := [subject, number] + rest;
    assert w[2..] == rest;
    assert !HasDigit("one") && !HasDigit("all");
    CourseCodeRead(w);
  }

  /** "prerequisite:" and "correquisite:" at the front both become a Prereq token. */
  lemma TokensOfMarker(word: string, rest: seq<string>)
    requires word == "prerequisite:" || word == "correquisite:"
    requires EndsSafely(rest)
    ensures EndsSafely([word] + rest)
    ensures Tokens([word] + rest) == [Token(Prereq, "")] + Tokens(rest)
  {
    var w := [word] + rest;
    assert w[1..] == rest;
    assert MatchCourseCode(w) == NoMatch;
    NextOfMatch(w);
  }

  /** A leading "of" is not recognised by itself and is discarded. */
  lemma TokensOfOf(rest: seq<string>)
    requires EndsSafely(rest)
    ensures EndsSafely(["of"] + rest)
    ensures Tokens(["of"] + rest) == Tokens(rest)
  {
    var w := ["of"] + rest;
    assert w[1..] == rest;
    assert MatchCourseCode(w) == NoMatch;
    assert Recognize(w) == NoMatch;
    NextOfNoMatch(w);
  }

  /** "one of" / "all of" at the front gives one marker; the "of" left behind is discarded. */
  lemma TokensOfPhrase(first: string, rest: seq<string>)
    requires first == "one" || first == "all"
    requires EndsSafely(rest)
    ensures EndsSafely([first, "of"] + rest)
    ensures Tokens([first, "of"] + rest) == [Token(if first == "one" then Any else All, "")] + Tokens(rest)
  {
    var w := [first, "of"] + rest;
    var tok := Token(if first == "one" then Any else All, "");
    assert |w| >= 2 && w[0] == first && w[1] == "of" && w[1..] == ["of"] + rest;
    assert MatchCourseCode(w) == NoMatch;
    assert Recognize(w) == Matched(tok, ["of"] + rest);
    NextOfMatch(w);
    TokensOfOf(rest);
    TokensCons(w);
  }

  /** With no marker word in the text, the stream holds no Prereq-tagged token. */
  predicate NoMarkerWords(words: seq<string>) {
    forall i :: 0 <= i < |words| ==> words[i] != "prerequisite:" && words[i] != "correquisite:"
  }

  lemma {:induction false} NoMarkerNoPrereq(words: seq<string>)
    requires EndsSafely(words) && NoMarkerWords(words)
    ensures forall i :: 0 <= i < |Tokens(words)| ==> Tokens(words)[i].ttype != Prereq
    decreases |words|
  {
    NextNoPrereq(words);
    match Next(words)
    case Exhausted =>
    case Emit(tok, rest) =>
      NoMarkerSuffix(words, |words| - |rest|);
      NoMarkerNoPrereq(rest);
      TokensCons(words);
      NoPrereqCons(tok, Tokens(rest));
  }

  lemma NoPrereqCons(tok: Token, toks: seq<Token>)
    requires tok.ttype != Prereq && forall i :: 0 <= i < |toks| ==> toks[i].ttype != Prereq
    ensures forall i :: 0 <= i < |[tok] + toks| ==> ([tok] + toks)[i].ttype != Prereq
  {
    forall i | 0 <= i < |[tok] + toks| ensures ([tok] + toks)[i].ttype != Prereq {
      if i > 0 { assert ([tok] + toks)[i] == toks[i - 1]; }
    }
  }

  lemma {:induction false} NextNoPrereq(words: seq<string>)
    requires NoMarkerWords(words)
    ensures Next(words).Emit? ==> Next(words).tok.ttype != Prereq
    decreases |words|
  {
    if |words| > 0 && Recognize(words).NoMatch? {
      NoMarkerSuffix(words, 1);
      NextNoPrereq(words[1..]);
    }
  }

  lemma NoMarkerSuffix(words: seq<string>, k: nat)
    requires NoMarkerWords(words) && k <= |words|
    ensures NoMarkerWords(words[k..])
  {
    forall i | 0 <= i < |words| - k ensures words[k..][i] != "prerequisite:" && words[k..][i] != "correquisite:" {
      assert words[k..][i] == words[k + i];
    }
  }

  /** The Tokenizer struct: the words not yet consumed. */
  class Tokenizer {
    var words: seq<string>

    /** MakeTokenizer. */
    constructor (src: string)
      ensures words == Fields(ToLower(src))
      ensures forall i :: 0 <= i < |words| ==> IsWord(words[i]) && IsLower(words[i])
    {
      words := Fields(ToLower(src));
      FieldsOfLower(ToLower(src));
    }

    method ParseCourseCode() returns (tok: Token, ok: bool)
      modifies this
      ensures ok == MatchCourseCode(old(words)).Matched?
      ensures ok ==> tok == MatchCourseCode(old(words)).tok && words == MatchCourseCode(old(words)).rest
      ensures !ok ==> tok == NoToken && words == old(words)
    {
      if |words| >= 2 {
        if words[0] in Subjects {
          var code := words[1];
          while |code| > 0 && !IsDigit(code[|code| - 1])
            invariant StripCode(code) == StripCode(words[1])
            decreases |code|
          {
            code := code[..|code| - 1];
          }
          if |code| == 0 {
            return NoToken, false;
          }
          var val := words[0] + "_" + code;
          words := words[2..];
          return Token(CourseCode, val), true;
        }
      }
      return NoToken, false;
    }

    method ParsePrereq() returns (tok: Token, ok: bool)
      modifies this
      ensures ok == MatchPrereq(old(words)).Matched?
      ensures ok ==> tok == MatchPrereq(old(words)).tok && words == MatchPrereq(old(words)).rest
      ensures !ok ==> tok == NoToken && words == old(words)
    {
      if |words| >= 1 {
        if words[0] == "prerequisite:" {
          words := words[1..];
          return Token(Prereq, ""), true;
        }
      }
      return NoToken, false;
    }

    method ParseCorreq() returns (tok: Token, ok: bool)
      modifies this
      ensures ok == MatchCorreq(old(words)).Matched?
      ensures ok ==> tok == MatchCorreq(old(words)).tok && words == MatchCorreq(old(words)).rest
      ensures !ok ==> tok == NoToken && words == old(words)
    {
      if |words| >= 1 {
        if words[0] == "correquisite:" {
          words := words[1..];
          return Token(Prereq, ""), true;
        }
      }
      return NoToken, false;
    }

    /** The caller must not leave "one" as the only word: words[1] is read unchecked. */
    method ParseAny() returns (tok: Token, ok: bool)
      requires words != ["one"]
      modifies this
      ensures ok == MatchAny(old(words)).Matched?
      ensures ok ==> tok == MatchAny(old(words)).tok && words == MatchAny(old(words)).rest
      ensures !ok ==> tok == NoToken && words == old(words)
    {
      if |words| >= 1 {
        if words[0] == "one" && words[1] == "of" {
          words := words[1..];
          return Token(Any, ""), true;
        }
      }
      return NoToken, false;
    }

    /** The caller must not leave "all" as the only word: words[1] is read unchecked. */
    method ParseAll() returns (tok: Token, ok: bool)
      requires words != ["all"]
      modifies this
      ensures ok == MatchAll(old(words)).Matched?
      ensures ok ==> tok == MatchAll(old(words)).tok && words == MatchAll(old(words)).rest
      ensures !ok ==> tok == NoToken && words == old(words)
    {
      if |words| >= 1 {
        if words[0] == "all" && words[1] == "of" {
          words := words[1..];
          return Token(All, ""), true;
        }
      }
      return NoToken, false;
    }

    /** Returns the next token and true, or NoToken and false once the words are used up;
        the remaining words are always a suffix of the previous ones. */
    method NextToken() returns (tok: Token, ok: bool)
      requires !Next(words).Faulted?
      modifies this
      ensures ok == Next(old(words)).Emit?
      ensures ok ==> tok == Next(old(words)).tok && words == Next(old(words)).rest
      ensures !ok ==> tok == NoToken && words == []
    {
      while |words| > 0
        invariant Next(words) == Next(old(words))
        decreases |words|
      {
        ghost var before := words;
        tok, ok := ParseCourseCode();
        if ok { NextOfMatch(before); return; }
        assert MatchCourseCode(before) == NoMatch;
        tok, ok := ParsePrereq();
        if ok { NextOfMatch(before); return; }
        assert MatchPrereq(before) == NoMatch;
        tok, ok := ParseCorreq();
        if ok { NextOfMatch(before); return; }
        assert MatchCorreq(before) == NoMatch;
        NoFaultBeforeAny(before);
        tok, ok := ParseAny();
        if ok { NextOfMatch(before); return; }
        assert MatchAny(before) == NoMatch;
        tok, ok := ParseAll();
        if ok { NextOfMatch(before); return; }
        assert Recognize(before) == NoMatch;
        NextOfNoMatch(before);
        words := words[1..];
      }
      return NoToken, false;
    }
  }
}
