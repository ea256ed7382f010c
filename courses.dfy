/** The dependency classifier and the title helpers of main.go: a course body's token
    stream becomes one Course record, stored in the course graph under the course's key. */
module Courses {
  import opened Text
  import opened Tokenize

  /** DependencyTypeNone, DependencyTypeAll, DependencyTypeAny. */
  datatype DependencyType = DepNone | DepAll | DepAny

  /** The Course struct. */
  datatype Course = Course(desc: string, depType: DependencyType, edges: seq<string>)

  /** The state extractDependencies carries from token to token. */
  datatype Classifier = Classifier(seenPrereq: bool, dep: Course)

  /** The state before the first token is the meaning of the empty stream. */
  function Start(desc: string): (s: Classifier)
    ensures s.dep.desc == desc && KindCoversEdges(s.dep)
    ensures s.seenPrereq == HasPrereq([])
    ensures s.dep.edges == CodeValues(Zone([])) && s.dep.depType == ZoneKind(Zone([]))
  {
    Classifier(false, Course(desc, DepNone, []))
  }

  /** One pass through the switch of extractDependencies. */
  function Transition(s: Classifier, tok: Token): (s': Classifier)
    ensures s'.dep.desc == s.dep.desc
    ensures s.dep.depType != DepNone ==> s'.dep.depType != DepNone
    ensures s'.dep.edges == s.dep.edges
         || (s.seenPrereq && tok.ttype == CourseCode && s'.dep.edges == s.dep.edges + [tok.val])
  {
    match tok.ttype
    case CourseCode =>
      if s.seenPrereq then
        var kind := if s.dep.depType == DepNone then DepAll else s.dep.depType;
        s.(dep := s.dep.(depType := kind, edges := s.dep.edges + [tok.val]))
      else s
    case Prereq => s.(seenPrereq := true)
    case Correq => s.(seenPrereq := false)
    case Any => if s.seenPrereq then s.(dep := s.dep.(depType := DepAny)) else s
    case All => if s.seenPrereq then s.(dep := s.dep.(depType := DepAll)) else s
  }

  /** Edges are only ever recorded together with a dependency kind. */
  predicate KindCoversEdges(c: Course) {
    c.edges != [] ==> c.depType != DepNone
  }

  /** The classifier state after the tokens toks, one Transition per token in order. */
  function Run(s: Classifier, toks: seq<Token>): (r: Classifier)
    ensures r.dep.desc == s.dep.desc
    ensures KindCoversEdges(s.dep) ==> KindCoversEdges(r.dep)
    ensures s.dep.depType != DepNone ==> r.dep.depType != DepNone
    decreases |toks|
  {
    if toks == [] then s else Transition(Run(s, toks[..|toks| - 1]), toks[|toks| - 1])
  }

  /** The record extractDependencies builds from a token stream. */
  function Classify(toks: seq<Token>, desc: string): (c: Course)
    ensures c.desc == desc
    ensures KindCoversEdges(c)
  {
    Run(Start(desc), toks).dep
  }

  // Reference definitions, stated over the token stream without the classifier's state.

  predicate NoCorreq(toks: seq<Token>) {
    forall i :: 0 <= i < |toks| ==> toks[i].ttype != Correq
  }

  predicate HasPrereq(toks: seq<Token>) {
    exists i :: 0 <= i < |toks| && toks[i].ttype == Prereq
  }

  /** The index just after the first Prereq-tagged token, or |toks| when there is none. */
  function ZoneStart(toks: seq<Token>): (z: nat)
    ensures z <= |toks|
    ensures HasPrereq(toks) ==> 0 < z && toks[z - 1].ttype == Prereq
    ensures forall j :: 0 <= j < z - 1 ==> toks[j].ttype != Prereq
    ensures !HasPrereq(toks) ==> z == |toks|
    decreases |toks|
  {
    if toks == [] then 0
    else if toks[0].ttype == Prereq then 1
    else
      var z := 1 + ZoneStart(toks[1..]);
      assert forall j :: 1 <= j < |toks| ==> toks[j] == toks[1..][j - 1];
      z
  }

  /** The prerequisite zone: every token after the first Prereq-tagged one. */
  function Zone(toks: seq<Token>): seq<Token> {
    toks[ZoneStart(toks)..]
  }

  /** The values of the course-code tokens, in stream order, duplicates kept. */
  function CodeValues(toks: seq<Token>): seq<string>
    decreases |toks|
  {
    if toks == [] then []
    else
      var last := toks[|toks| - 1];
      CodeValues(toks[..|toks| - 1]) + (if last.ttype == CourseCode then [last.val] else [])
  }

  /** The kind of the last Any or All marker, DepNone when there is none. */
  function LastMarker(toks: seq<Token>): DependencyType
    decreases |toks|
  {
    if toks == [] then DepNone
    else if toks[|toks| - 1].ttype == Any then DepAny
    else if toks[|toks| - 1].ttype == All then DepAll
    else LastMarker(toks[..|toks| - 1])
  }

  /** The kind a zone calls for: its last marker, otherwise All exactly when it names a course. */
  function ZoneKind(zone: seq<Token>): DependencyType {
    if LastMarker(zone) != DepNone then LastMarker(zone)
    else if CodeValues(zone) != [] then DepAll
    else DepNone
  }

  lemma {:induction false} ZoneSnoc(toks: seq<Token>, t: Token)
    ensures HasPrereq(toks) ==> Zone(toks + [t]) == Zone(toks) + [t]
    ensures !HasPrereq(toks) ==> Zone(toks + [t]) == []
    ensures HasPrereq(toks + [t]) <==> HasPrereq(toks) || t.ttype == Prereq
  {
    var ts := toks + [t];
    assert ts[..|toks|] == toks;
    assert forall j :: 0 <= j < |toks| ==> ts[j] == toks[j];
    if HasPrereq(toks) {
      var z := ZoneStart(toks);
      assert ts[z - 1].ttype == Prereq;
      assert HasPrereq(ts);
      ZoneStartUnique(ts, z);
      assert ZoneStart(ts) == z;
    } else {
      if HasPrereq(ts) {
        var z := ZoneStart(ts);
        assert z == |ts|;
      } else {
        assert ZoneStart(ts) == |ts|;
      }
    }
    assert ts[|ts| - 1] == t;
  }

  lemma ZoneStartUnique(toks: seq<Token>, z: nat)
    requires 0 < z <= |toks| && toks[z - 1].ttype == Prereq
    requires forall j :: 0 <= j < z - 1 ==> toks[j].ttype != Prereq
    ensures ZoneStart(toks) == z
  {
    assert HasPrereq(toks);
  }

  /** What the classifier computes, without Correq tokens: the zone is open exactly after a
      Prereq token; the edges are the course codes inside it; the kind is the zone's kind. */
  lemma {:induction false} RunMeaning(desc: string, toks: seq<Token>)
    requires NoCorreq(toks)
    ensures Run(Start(desc), toks).seenPrereq == HasPrereq(toks)
    ensures Run(Start(desc), toks).dep.edges == CodeValues(Zone(toks))
    ensures Run(Start(desc), toks).dep.depType == ZoneKind(Zone(toks))
    decreases |toks|
  {
    if toks == [] {
      assert Zone(toks) == [];
    } else {
      var front, t := toks[..|toks| - 1], toks[|toks| - 1];
      assert toks == front + [t];
      assert NoCorreq(front) by {
        forall i | 0 <= i < |front| ensures front[i].ttype != Correq { assert front[i] == toks[i]; }
      }
      RunMeaning(desc, front);
      RunMeaningStep(desc, front, t);
    }
  }

  lemma CodeValuesAndMarkerSnoc(zone: seq<Token>, t: Token)
    ensures CodeValues(zone + [t]) == CodeValues(zone) + (if t.ttype == CourseCode then [t.val] else [])
    ensures LastMarker(zone + [t])
         == if t.ttype == Any then DepAny else if t.ttype == All then DepAll else LastMarker(zone)
  {
    var z := zone + [t];
    assert z[..|z| - 1] == zone && z[|z| - 1] == t;
  }

  /** The inductive step of RunMeaning: one more token keeps the three facts. */
  lemma RunMeaningStep(desc: string, front: seq<Token>, t: Token)
    requires t.ttype != Correq
    requires Run(Start(desc), front).seenPrereq == HasPrereq(front)
    requires Run(Start(desc), front).dep.edges == CodeValues(Zone(front))
    requires Run(Start(desc), front).dep.depType == ZoneKind(Zone(front))
    ensures Run(Start(desc), front + [t]).seenPrereq == HasPrereq(front + [t])
    ensures Run(Start(desc), front + [t]).dep.edges == CodeValues(Zone(front + [t]))
    ensures Run(Start(desc), front + [t]).dep.depType == ZoneKind(Zone(front + [t]))
  {
    var toks := front + [t];
    assert toks[..|toks| - 1] == front && toks[|toks| - 1] == t;
    ZoneSnoc(front, t);
    if HasPrereq(front) {
      CodeValuesAndMarkerSnoc(Zone(front), t);
    }
  }

  /** Edges lists, in order, the course codes seen after the first Prereq-tagged token. */
  lemma ClassifyEdges(toks: seq<Token>, desc: string)
    requires NoCorreq(toks)
    ensures Classify(toks, desc).edges == CodeValues(Zone(toks))
  {
    RunMeaning(desc, toks);
  }

  /** The final kind: the last Any/All marker inside the zone, otherwise All when there are
      edges and None when there are none. Markers before the zone are ignored. */
  lemma ClassifyKind(toks: seq<Token>, desc: string)
    requires NoCorreq(toks)
    ensures Classify(toks, desc).depType ==
      if LastMarker(Zone(toks)) != DepNone then LastMarker(Zone(toks))
      else if Classify(toks, desc).edges != [] then DepAll
      else DepNone
  {
    RunMeaning(desc, toks);
  }

  /** Once open, the zone stays open: no token the tokenizer emits closes it. */
  lemma ZoneStaysOpen(desc: string, toks: seq<Token>, i: nat, j: nat)
    requires NoCorreq(toks) && i <= j <= |toks|
    requires Run(Start(desc), toks[..i]).seenPrereq
    ensures Run(Start(desc), toks[..j]).seenPrereq
  {
    assert NoCorreq(toks[..i]) by {
      forall k | 0 <= k < i ensures toks[..i][k].ttype != Correq { assert toks[..i][k] == toks[k]; }
    }
    assert NoCorreq(toks[..j]) by {
      forall k | 0 <= k < j ensures toks[..j][k].ttype != Correq { assert toks[..j][k] == toks[k]; }
    }
    RunMeaning(desc, toks[..i]);
    RunMeaning(desc, toks[..j]);
    var k :| 0 <= k < i && toks[..i][k].ttype == Prereq;
    assert toks[..j][k] == toks[..i][k];
  }

  /** A body without a "prerequisite:" or "correquisite:" word gets no dependencies. */
  lemma NoMarkerNoDependencies(words: seq<string>, desc: string)
    requires EndsSafely(words) && NoMarkerWords(words)
    ensures Classify(Tokens(words), desc) == Course(desc, DepNone, [])
  {
    var toks := Tokens(words);
    NoMarkerNoPrereq(words);
    RunMeaning(desc, toks);
    assert !HasPrereq(toks);
    assert Zone(toks) == [];
  }

  /** The token a course mention such as "cosc 111," stands for. */
  function CodeToken(subject: string, number: string): Token {
    Token(CourseCode, subject + "_" + StripCode(number))
  }

  predicate IsMention(subject: string, number: string) {
    subject in Subjects && HasDigit(number)
  }

  lemma TwoMentionsTokens(s1: string, n1: string, s2: string, n2: string)
    requires IsMention(s1, n1) && IsMention(s2, n2)
    ensures EndsSafely([s1, n1, s2, n2])
    ensures Tokens([s1, n1, s2, n2]) == [CodeToken(s1, n1), CodeToken(s2, n2)]
  {
    assert [s2, n2] == [s2, n2] + [];
    TokensOfCourseCode(s2, n2, []);
    assert [s1, n1, s2, n2] == [s1, n1] + [s2, n2];
    TokensOfCourseCode(s1, n1, [s2, n2]);
  }

  lemma BareListTokens(s1: string, n1: string, s2: string, n2: string)
    requires IsMention(s1, n1) && IsMention(s2, n2)
    ensures EndsSafely(["prerequisite:", s1, n1, s2, n2])
    ensures Tokens(["prerequisite:", s1, n1, s2, n2])
         == [Token(Prereq, ""), CodeToken(s1, n1), CodeToken(s2, n2)]
  {
    TwoMentionsTokens(s1, n1, s2, n2);
    assert ["prerequisite:", s1, n1, s2, n2] == ["prerequisite:"] + [s1, n1, s2, n2];
    TokensOfMarker("prerequisite:", [s1, n1, s2, n2]);
  }

  lemma BareListRun(desc: string, c1: Token, c2: Token)
    requires c1.ttype == CourseCode && c2.ttype == CourseCode
    ensures Classify([Token(Prereq, ""), c1, c2], desc) == Course(desc, DepAll, [c1.val, c2.val])
  {
    var p := Token(Prereq, "");
    var st := Transition(Start(desc), p);
    assert [p, c1, c2] == [p] + [c1, c2] && [c1, c2] == [c1] + [c2] && [c2] == [c2] + [];
    RunCons(Start(desc), p, [c1, c2]);
    RunCons(st, c1, [c2]);
    RunCons(Transition(st, c1), c2, []);
  }

  /** "Prerequisite: COSC 111, COSC 121": a bare list of courses after the marker is an
      implicit conjunction of all of them. */
  lemma BareListIsAll(desc: string, s1: string, n1: string, s2: string, n2: string)
    requires IsMention(s1, n1) && IsMention(s2, n2)
    ensures EndsSafely(["prerequisite:", s1, n1, s2, n2])
    ensures Classify(Tokens(["prerequisite:", s1, n1, s2, n2]), desc)
         == Course(desc, DepAll, [CodeToken(s1, n1).val, CodeToken(s2, n2).val])
  {
    BareListTokens(s1, n1, s2, n2);
    BareListRun(desc, CodeToken(s1, n1), CodeToken(s2, n2));
  }

  lemma OneOfRun(desc: string, c1: Token, c2: Token)
    requires c1.ttype == CourseCode && c2.ttype == CourseCode
    ensures Classify([Token(Prereq, "")] + [Token(Any, ""), c1, c2], desc)
         == Course(desc, DepAny, [c1.val, c2.val])
  {
    var p, a := Token(Prereq, ""), Token(Any, "");
    var s1 := Transition(Start(desc), p);
    var s2 := Transition(s1, a);
    assert [a, c1, c2] == [a] + [c1, c2];
    assert [c1, c2] == [c1] + [c2] && [c2] == [c2] + [];
    RunCons(Start(desc), p, [a, c1, c2]);
    RunCons(s1, a, [c1, c2]);
    RunCons(s2, c1, [c2]);
    RunCons(Transition(s2, c1), c2, []);
  }

  /** "Prerequisite: one of COSC 111, COSC 121": the "one of" marker makes the list a
      disjunction. */
  lemma OneOfIsAny(desc: string, s1: string, n1: string, s2: string, n2: string)
    requires IsMention(s1, n1) && IsMention(s2, n2)
    ensures EndsSafely(["prerequisite:", "one", "of"] + [s1, n1, s2, n2])
    ensures Classify(Tokens(["prerequisite:", "one", "of"] + [s1, n1, s2, n2]), desc)
         == Course(desc, DepAny, [CodeToken(s1, n1).val, CodeToken(s2, n2).val])
  {
    var ts := [Token(Any, ""), CodeToken(s1, n1), CodeToken(s2, n2)];
    PhraseThenMentions(s1, n1, s2, n2);
    MarkerBeforePhrase([s1, n1, s2, n2], ts);
    OneOfRun(desc, CodeToken(s1, n1), CodeToken(s2, n2));
  }

  /** The list identity MarkerBeforePhrase needs, proved away from its Tokens terms. */
  lemma MarkerPhraseSplit(rest: seq<string>)
    ensures ["prerequisite:"] + (["one", "of"] + rest) == ["prerequisite:", "one", "of"] + rest
  {
    assert ["prerequisite:", "one", "of"] == ["prerequisite:"] + ["one", "of"];
  }

  lemma MarkerBeforePhrase(rest: seq<string>, ts: seq<Token>)
    requires EndsSafely(["one", "of"] + rest) && Tokens(["one", "of"] + rest) == ts
    ensures EndsSafely(["prerequisite:", "one", "of"] + rest)
    ensures Tokens(["prerequisite:", "one", "of"] + rest) == [Token(Prereq, "")] + ts
  {
    MarkerPhraseSplit(rest);
    TokensOfMarker("prerequisite:", ["one", "of"] + rest);
  }

  lemma PhraseThenMentions(s1: string, n1: string, s2: string, n2: string)
    requires IsMention(s1, n1) && IsMention(s2, n2)
    ensures EndsSafely(["one", "of"] + [s1, n1, s2, n2])
    ensures Tokens(["one", "of"] + [s1, n1, s2, n2]) == [Token(Any, ""), CodeToken(s1, n1), CodeToken(s2, n2)]
  {
    TwoMentionsTokens(s1, n1, s2, n2);
    TokensOfPhrase("one", [s1, n1, s2, n2]);
  }

  lemma AfterMarkerRun(desc: string, c0: Token, c1: Token)
    requires c0.ttype == CourseCode && c1.ttype == CourseCode
    ensures Classify([c0, Token(Prereq, ""), c1], desc) == Course(desc, DepAll, [c1.val])
  {
    var p := Token(Prereq, "");
    var s0 := Transition(Start(desc), c0);
    assert [c0, p, c1] == [c0] + [p, c1] && [p, c1] == [p] + [c1] && [c1] == [c1] + [];
    RunCons(Start(desc), c0, [p, c1]);
    RunCons(s0, p, [c1]);
    RunCons(Transition(s0, p), c1, []);
  }

  /** A course mentioned before the marker, such as in "Also offered as MATH 101.
      Prerequisite: COSC 111", is not a dependency; the one after it is. Either marker
      word opens the zone, since a corequisite is tokenized as a prerequisite. */
  lemma OnlyAfterMarker(desc: string, marker: string, s0: string, n0: string, s1: string, n1: string)
    requires marker == "prerequisite:" || marker == "correquisite:"
    requires IsMention(s0, n0) && IsMention(s1, n1)
    ensures EndsSafely([s0, n0] + [marker, s1, n1])
    ensures Classify(Tokens([s0, n0] + [marker, s1, n1]), desc)
         == Course(desc, DepAll, [CodeToken(s1, n1).val])
  {
    AfterMarkerTokens(marker, s0, n0, s1, n1);
    AfterMarkerRun(desc, CodeToken(s0, n0), CodeToken(s1, n1));
  }

  lemma MarkerThenMention(marker: string, s1: string, n1: string)
    requires marker == "prerequisite:" || marker == "correquisite:"
    requires IsMention(s1, n1)
    ensures EndsSafely([marker, s1, n1])
    ensures Tokens([marker, s1, n1]) == [Token(Prereq, ""), CodeToken(s1, n1)]
  {
    assert [s1, n1] == [s1, n1] + [];
    TokensOfCourseCode(s1, n1, []);
    assert [marker, s1, n1] == [marker] + [s1, n1];
    TokensOfMarker(marker, [s1, n1]);
  }

  lemma AfterMarkerTokens(marker: string, s0: string, n0: string, s1: string, n1: string)
    requires marker == "prerequisite:" || marker == "correquisite:"
    requires IsMention(s0, n0) && IsMention(s1, n1)
    ensures EndsSafely([s0, n0] + [marker, s1, n1])
    ensures Tokens([s0, n0] + [marker, s1, n1]) == [CodeToken(s0, n0), Token(Prereq, ""), CodeToken(s1, n1)]
  {
    MarkerThenMention(marker, s1, n1);
    TokensOfCourseCode(s0, n0, [marker, s1, n1]);
  }

  /** CourseGraph: a map that extractDependencies updates in place. */
  class CourseGraph {
    var courses: map<string, Course>

    constructor ()
      ensures courses == map[]
    {
      courses := map[];
    }
  }

  /** Run, which folds from the last token, also folds from the first one. */
  lemma {:induction false} RunCons(s: Classifier, t: Token, toks: seq<Token>)
    ensures Run(s, [t] + toks) == Run(Transition(s, t), toks)
    decreases |toks|
  {
    if toks != [] {
      var front := toks[..|toks| - 1];
      assert ([t] + toks)[..|toks|] == [t] + front;
      RunCons(s, t, front);
    }
  }

  /** One NextToken call and one pass through the switch leave the final state unchanged. */
  lemma RunStep(s: Classifier, words: seq<string>)
    requires EndsSafely(words) && Next(words).Emit?
    ensures EndsSafely(Next(words).rest)
    ensures Run(Transition(s, Next(words).tok), Tokens(Next(words).rest)) == Run(s, Tokens(words))
  {
    TokensCons(words);
    RunCons(s, Next(words).tok, Tokens(Next(words).rest));
  }

  /** extractDependencies: tokenizes body, classifies the tokens and stores the record
      under key, replacing any earlier record for that key. The body must not end in
      "one" or "all", where NextToken reads past the last word. */
  method ExtractDependencies(g: CourseGraph, courseDesc: string, key: string, body: string)
    requires EndsSafely(Fields(ToLower(body)))
    modifies g
    ensures g.courses == old(g.courses)[key := Classify(Tokens(Fields(ToLower(body))), courseDesc)]
  {
    var t := new Tokenizer(body);
    Drain(g, courseDesc, key, t);
  }

  /** The loop of extractDependencies: drain the tokenizer through the switch, then store
      the record under key. */
  method Drain(g: CourseGraph, courseDesc: string, key: string, t: Tokenizer)
    requires EndsSafely(t.words)
    modifies g, t
    ensures g.courses == old(g.courses)[key := Classify(Tokens(old(t.words)), courseDesc)]
  {
    ghost var goal := Run(Start(courseDesc), Tokens(t.words));
    var dep := Course(courseDesc, DepNone, []);
    var seenPrereq := false;
    while true
      invariant EndsSafely(t.words)
      invariant Run(Classifier(seenPrereq, dep), Tokens(t.words)) == goal
      invariant g.courses == old(g.courses)
      decreases |t.words|
    {
      ghost var before := t.words;
      ghost var state := Classifier(seenPrereq, dep);
      var tok, res := t.NextToken();
      if !res {
        TokensEnd(before);
        break;
      }
      match tok.ttype {
        case CourseCode =>
          if seenPrereq {
            if dep.depType == DepNone {
              dep := dep.(depType := DepAll);
            }
            dep := dep.(edges := dep.edges + [tok.val]);
          }
        case Prereq =>
          seenPrereq := true;
        case Correq =>
          seenPrereq := false;
        case Any =>
          if seenPrereq {
            dep := dep.(depType := DepAny);
          }
        case All =>
          if seenPrereq {
            dep := dep.(depType := DepAll);
          }
      }
      assert Classifier(seenPrereq, dep) == Transition(state, tok);
      RunStep(state, before);
    }
    g.courses := g.courses[key := dep];
  }

  /** The graph after a sequence of extractDependencies writes, in order. */
  function Assemble(g: map<string, Course>, writes: seq<(string, Course)>): (r: map<string, Course>)
    ensures r.Keys == g.Keys + set i | 0 <= i < |writes| :: writes[i].0
    decreases |writes|
  {
    if writes == [] then g
    else
      var last := writes[|writes| - 1];
      var front := Assemble(g, writes[..|writes| - 1]);
      assert forall i :: 0 <= i < |writes| - 1 ==> writes[..|writes| - 1][i] == writes[i];
      front[last.0 := last.1]
  }

  /** The last write under a key is the one the graph keeps. */
  lemma {:induction false} LastWriteWins(g: map<string, Course>, writes: seq<(string, Course)>, i: nat)
    requires i < |writes|
    requires forall j :: i < j < |writes| ==> writes[j].0 != writes[i].0
    ensures writes[i].0 in Assemble(g, writes) && Assemble(g, writes)[writes[i].0] == writes[i].1
    decreases |writes|
  {
    if i < |writes| - 1 {
      var front := writes[..|writes| - 1];
      assert forall j :: 0 <= j < |front| ==> front[j] == writes[j];
      LastWriteWins(g, front, i);
    }
  }

  /** A key no write names keeps its old record. */
  lemma {:induction false} UnwrittenKeepsRecord(g: map<string, Course>, writes: seq<(string, Course)>, k: string)
    requires k in g
    requires forall j :: 0 <= j < |writes| ==> writes[j].0 != k
    ensures k in Assemble(g, writes) && Assemble(g, writes)[k] == g[k]
    decreases |writes|
  {
    if writes != [] {
      var front := writes[..|writes| - 1];
      assert forall j :: 0 <= j < |front| ==> front[j] == writes[j];
      UnwrittenKeepsRecord(g, front, k);
    }
  }

  /** makeKeyFromTitle: the lower-cased first field without its last two characters, "_",
      then the second field. The title needs two fields and a first field of length two. */
  function MakeKeyFromTitle(title: string): (key: string)
    requires |Fields(ToLower(title))| >= 2 && |Fields(ToLower(title))[0]| >= 2
    ensures IsWord(key) && IsLower(key)
    ensures |key| == |Fields(ToLower(title))[0]| + |Fields(ToLower(title))[1]| - 1
    ensures var f0 := Fields(ToLower(title))[0];
            key[..|f0| - 2] == f0[..|f0| - 2] && key[|f0| - 2] == '_'
    ensures var f0 := Fields(ToLower(title))[0];
            key[|f0| - 1..] == Fields(ToLower(title))[1]
  {
    var toks := Fields(ToLower(title));
    FieldsOfLower(ToLower(title));
    KeyShape(toks[0], toks[1]);
    KeyParts(toks[0], toks[1]);
    toks[0][..|toks[0]| - 2] + "_" + toks[1]
  }

  lemma KeyParts(first: string, second: string)
    requires |first| >= 2
    ensures var key := first[..|first| - 2] + "_" + second;
            key[..|first| - 2] == first[..|first| - 2] && key[|first| - 2] == '_' && key[|first| - 1..] == second
  {
  }

  lemma KeyShape(first: string, second: string)
    requires IsWord(first) && IsLower(first) && |first| >= 2
    requires IsWord(second) && IsLower(second)
    ensures var key := first[..|first| - 2] + "_" + second; IsWord(key) && IsLower(key)
  {
    var dept := first[..|first| - 2];
    var key := dept + "_" + second;
    assert forall i :: 0 <= i < |dept| ==> key[i] == first[i];
    assert forall i :: 0 <= i < |second| ==> key[|dept| + 1 + i] == second[i];
    assert key[|dept|] == '_';
    forall i | 0 <= i < |key| ensures !IsSpace(key[i]) && !IsUpper(key[i]) {
      if i < |dept| {
      } else if i > |dept| {
        assert key[i] == second[i - |dept| - 1];
      }
    }
  }

  /** A title "<subject><two characters> <number> ..." gets the key "<subject>_<number>",
      with the number exactly as the lower-cased title spells it. */
  lemma TitleKeyParts(title: string, subject: string, suffix: string)
    requires |Fields(ToLower(title))| >= 2
    requires Fields(ToLower(title))[0] == subject + suffix && |suffix| == 2
    ensures MakeKeyFromTitle(title) == subject + "_" + Fields(ToLower(title))[1]
  {
    var key, n := MakeKeyFromTitle(title), Fields(ToLower(title))[1];
    assert key == key[..|subject|] + [key[|subject|]] + key[|subject| + 1..];
  }

  /** Unlike a course code in the body, the title's number keeps its trailing non-digits:
      a title numbered "111," does not get the key of the mention "cosc 111,". */
  lemma TitleKeyKeepsTrailing(title: string, subject: string, suffix: string)
    requires |Fields(ToLower(title))| >= 2
    requires Fields(ToLower(title))[0] == subject + suffix && |suffix| == 2
    requires subject in Subjects
    requires var n := Fields(ToLower(title))[1]; HasDigit(n) && !IsDigit(n[|n| - 1])
    ensures Next([subject, Fields(ToLower(title))[1]]).Emit?
    ensures Next([subject, Fields(ToLower(title))[1]]).tok.val != MakeKeyFromTitle(title)
  {
    var n := Fields(ToLower(title))[1];
    TitleKeyParts(title, subject, suffix);
    CourseCodeRead([subject, n]);
    assert |StripCode(n)| < |n|;
    assert |subject + "_" + StripCode(n)| < |subject + "_" + n|;
  }

  /** A title "<subject><two characters> <number> ..." whose number ends in a digit gets the
      key that the tokenizer gives a mention "<subject> <number>" of the same course. */
  lemma TitleKeyMatchesCourseCode(title: string, subject: string, suffix: string)
    requires |Fields(ToLower(title))| >= 2
    requires Fields(ToLower(title))[0] == subject + suffix && |suffix| == 2
    requires subject in Subjects
    requires var n := Fields(ToLower(title))[1]; IsDigit(n[|n| - 1])
    ensures Next([subject, Fields(ToLower(title))[1]]) == Emit(Token(CourseCode, MakeKeyFromTitle(title)), [])
  {
    var n := Fields(ToLower(title))[1];
    var w := [subject, n];
    assert HasDigit(n);
    CourseCodeRead(w);
    assert w[2..] == [];
    assert StripCode(n) == n;
    TitleKeyParts(title, subject, suffix);
  }

  /** getDescriptionFromTitle: the fields after the third, joined by single spaces. The
      title needs three fields; exactly three give the empty description. */
  function GetDescriptionFromTitle(title: string): (desc: string)
    requires |Fields(title)| >= 3
    ensures Fields(desc) == Fields(title)[3..]
    ensures |Fields(title)| == 3 ==> desc == ""
    ensures SingleSpaced(desc)
  {
    var toks := Fields(title);
    FieldsOfJoin(toks[3..]);
    JoinSingleSpaced(toks[3..]);
    Join(toks[3..], " ")
  }

  /** The two properties of the description fix it: any single-spaced string whose fields
      are the title's fields after the third is the description. */
  lemma DescriptionDetermined(title: string, d: string)
    requires |Fields(title)| >= 3
    requires SingleSpaced(d) && Fields(d) == Fields(title)[3..]
    ensures d == GetDescriptionFromTitle(title)
  {
    var desc := GetDescriptionFromTitle(title);
    SingleSpacedIsJoin(d);
    SingleSpacedIsJoin(desc);
  }
}
