# coursescraper: tokenizer and dependency classifier

coursescraper reads a university course calendar. For each course it takes the title and
the body text. It turns them into a record:

- a key. The title "COSC_O 111 (3) Computer Programming I" gives `cosc_111`: the first
  field loses its last two characters, then comes "_" and the second field;
- a description: the title's fields after the third, here "Computer Programming I";
- a dependency kind: None, All or Any;
- the list of course keys the course depends on.

The core modelled here is that transformation. It has two parts:

- **The tokenizer** (`tokenizer.go`). It lower-cases the body, splits it into
  whitespace-separated words and consumes the words from the front, producing tokens:
  - a course code made of a known subject and a number;
  - the words `prerequisite:` and `correquisite:`;
  - the phrases `one of` and `all of`.
- **The classifier** (`extractDependencies` in `main.go`). It drains the tokenizer. After
  the first prerequisite marker it collects course codes and lets `one of` / `all of`
  override the kind. It then stores the record in the course graph under the course's key.

The model has three modules:

- `Text` (`text.dfy`): the Go library operations the core relies on. These are
  `strings.Fields`, `strings.ToLower` and `strings.Join`, with `unicode.IsSpace` as the
  separator test.
- `Tokenize` (`tokenizer.dfy`): the token types and the recognisers. The `Tokenizer` class
  holds the `words` field that its methods shorten in place. `Next` and `Tokens` are the
  functions that specify them.
- `Courses` (`courses.dfy`): the classifier and the `CourseGraph` class with its mutable map.
  It also has `extractDependencies`, the title helpers and reference definitions of what the
  classifier computes.

Each imperative Go method is a Dafny method proved against a pure specification function:
- the `parseX` methods against `MatchX`;
- `NextToken` against `Next`;
- the loop of `extractDependencies` against `Run` over `Tokens`.

The properties of the behaviour are proved about those functions.

Where the code and the documented intent differ, the model follows the code:

- **One word past the end.** `parseAny` and `parseAll` read the word after `one` / `all`
  without checking that it exists. When the body ends in "one" or "all", Go panics with an
  index out of range. The model makes this an explicit `Fault` / `Faulted` outcome.
  `DrainsIff` proves that draining faults exactly when the last word is "one" or "all".
  The methods that Go would crash in require that this case does not arise.
- **Corequisites.** `parseCorreq` emits a token tagged Prereq, so a corequisite marker
  opens the prerequisite zone just as `prerequisite:` does. The Correq case of the switch
  is never reached. `Tokens` proves that no Correq token is ever produced.
- **Key digits are not stripped.** `makeKeyFromTitle` drops the last two characters of the
  first field. It does not strip trailing non-digits from the number. A title key equals
  the corresponding body course code only under the conditions of
  `TitleKeyMatchesCourseCode`. `TitleKeyKeepsTrailing` shows that the two differ otherwise.
- **Skipping words.** `NextToken` keeps dropping unrecognised words until a recogniser
  matches. It does not give up after one word.

The index-out-of-range panics of `makeKeyFromTitle` and `getDescriptionFromTitle` are
requirements on their inputs: fewer than two fields, or a first field shorter than two
characters; and fewer than three fields.

## Model

| member | source | states |
|---|---|---|
| Text.IsSpace | tokenizer.go:36 | The separator test of strings.Fields. No digit or ASCII letter is a separator. Among ASCII characters the separators are exactly space, tab, newline, vertical tab, form feed and carriage return. |
| Text.ToLower | tokenizer.go:36 | Lower-casing keeps the length and leaves no upper-case letter. Each upper-case letter becomes the letter 32 code points above it, which is its lower-case form. Whitespace stays where it was, and no other character changes. |
| Text.Fields | tokenizer.go:36 | Every field is non-empty and free of whitespace. |
| Text.FieldsKeepInk | tokenizer.go:36 | The fields, concatenated in order, are exactly the non-whitespace characters of the input. |
| Text.Join | main.go:37 | Joining no words gives "" and joining one word gives that word. Otherwise the result starts with the first word and ends with the last one. |
| Text.JoinAppend | main.go:37 | Joining two non-empty lists one after the other is joining each and putting one separator between them. With the one-word and no-word cases this determines Join. |
| Text.JoinSingleSpaced | main.go:37 | Words joined by " " have whitespace only as single spaces between two non-whitespace characters: none at either end, never two in a row, no tabs or newlines. |
| Text.SingleSpacedIsJoin | main.go:37 | Conversely, a single-spaced string is its own fields joined by " ". |
| Text.FieldsOfJoin | main.go:36-37 | Splitting words joined by single spaces gives the same words back. |
| Text.FieldsOfLower | tokenizer.go:36 | Every field of a lower-cased string is itself lower-case. |
| Tokenize.IsDigit | tokenizer.go:44 | A digit is never a separator, and lower-casing leaves it unchanged. |
| Tokenize.StripCode | tokenizer.go:43-51 | The trailing-non-digit strip returns the longest prefix that ends in a digit. Everything it removes is a non-digit. It returns "" exactly when the word has no digit. |
| Tokenize.MatchCourseCode | tokenizer.go:40-60 | Matches exactly when there are two words, the first is a known subject and the second contains a digit. It emits subject + "_" + the stripped number and consumes two words. It never faults. |
| Tokenize.MatchPrereq | tokenizer.go:62-71 | Matches exactly when the first word is "prerequisite:". It emits Prereq and consumes one word. |
| Tokenize.MatchCorreq | tokenizer.go:73-82 | Matches exactly when the first word is "correquisite:". It emits a token tagged Prereq and consumes one word. |
| Tokenize.MatchAny | tokenizer.go:84-93 | Faults exactly on the lone word "one". Matches exactly on "one of", emitting Any and consuming only "one". |
| Tokenize.MatchAll | tokenizer.go:95-104 | Faults exactly on the lone word "all". Matches exactly on "all of", emitting All and consuming only "all". |
| Tokenize.Recognize | tokenizer.go:107-122 | The recogniser chain faults exactly on ["one"] or ["all"]. It fails exactly when all five recognisers fail. A match consumes a non-empty prefix, never emits Correq, and leaves "of" in front after Any or All. |
| Tokenize.RecognizersDisjoint | tokenizer.go:107-122 | At most one of the five recognisers does not fail on given words, and the chain returns that one. So the order in which NextToken tries them makes no difference. |
| Tokenize.Next | tokenizer.go:106-126 | One NextToken call returns a proper suffix of the words and never a Correq token. It can fault only when the last word is "one" or "all". |
| Tokenize.NextFindsFirstMatch | tokenizer.go:107-124 | NextToken discards exactly the words before the first position where a recogniser matches, then returns that match. |
| Tokenize.Tokens | main.go:50-55 | The drained stream has at most as many tokens as there are words and contains no Correq token. |
| Tokenize.DrainsIff | tokenizer.go:84-104 | Draining the tokenizer never reads past the end if and only if the last word is not "one" or "all". |
| Tokenize.CourseCodeRead | tokenizer.go:40-56 | A known subject followed by a word with a digit is always read as one course code, whatever follows. |
| Tokenize.CourseCodeNormalised | tokenizer.go:43-55 | For every known subject: the subject followed by a number that ends in a digit and then only non-digits (such as "111,") yields exactly one token, subject_number. For example, "cosc 111," gives cosc_111. |
| Tokenize.NoDigitNoToken | tokenizer.go:48-51 | The two words "subject word", where the word has no digit, give no token at all. The word must also not be "prerequisite:", "correquisite:", "one" or "all", because those would start a token of their own. |
| Tokenize.TokensOfCourseCode | tokenizer.go:40-56 | At the front of the words, a course mention contributes one CourseCode token and then the rest is tokenized. |
| Tokenize.TokensOfMarker | tokenizer.go:62-82 | "prerequisite:" and "correquisite:" at the front both contribute one Prereq token. |
| Tokenize.TokensOfOf | tokenizer.go:123 | A leading "of" is not recognised and is dropped. |
| Tokenize.TokensOfPhrase | tokenizer.go:84-104 | "one of" / "all of" at the front contributes exactly one Any / All token. |
| Tokenize.NoMarkerNoPrereq | tokenizer.go:62-82 | Without a marker word in the text, no token is tagged Prereq. |
| Tokenize.Tokenizer.constructor | tokenizer.go:34-38 | The tokenizer starts with the fields of the lower-cased source. Every field is a non-empty, whitespace-free, lower-case word. |
| Tokenize.Tokenizer.ParseCourseCode | tokenizer.go:40-60 | Succeeds exactly when MatchCourseCode matches. It then returns its token and leaves its rest in words. Otherwise it returns the zero token and leaves words unchanged. |
| Tokenize.Tokenizer.ParsePrereq | tokenizer.go:62-71 | Like ParseCourseCode, with MatchPrereq. |
| Tokenize.Tokenizer.ParseCorreq | tokenizer.go:73-82 | Like ParseCourseCode, with MatchCorreq. |
| Tokenize.Tokenizer.ParseAny | tokenizer.go:84-93 | Like ParseCourseCode, with MatchAny, when the words are not the lone word "one". |
| Tokenize.Tokenizer.ParseAll | tokenizer.go:95-104 | Like ParseCourseCode, with MatchAll, when the words are not the lone word "all". |
| Tokenize.Tokenizer.NextToken | tokenizer.go:106-126 | Returns true exactly when Next emits. It then returns Next's token and leaves its rest in words. Otherwise it returns the zero token and leaves no words. |
| Courses.Start | main.go:42-47 | The state before the first token has the given description. It is exactly what the reference definitions give for the empty stream: zone closed, no edges, kind None. |
| Courses.Transition | main.go:56-76 | One pass through the switch keeps the description and never resets a kind to None. It either leaves the edges alone or appends the value of a CourseCode token seen after a Prereq. |
| Courses.Run | main.go:50-77 | Folding the switch over a stream keeps the description and keeps "edges imply a kind". |
| Courses.Classify | main.go:40-79 | The record built from a stream has the given description. It has a kind whenever it has edges. |
| Courses.RunMeaning | main.go:56-76 | For streams without Correq tokens, which is every stream Tokens produces: the zone is open exactly when a Prereq token has been seen. The edges are the course codes in the zone, in order. The kind is the one the zone calls for. |
| Courses.ClassifyEdges | main.go:57-63 | For streams without Correq tokens, which is every stream Tokens produces: the edges list, in order and with duplicates, is the course codes after the first Prereq token. |
| Courses.ClassifyKind | main.go:57-75 | For streams without Correq tokens, which is every stream Tokens produces: the kind is the last Any/All marker in the zone. With no marker, it is All when there are edges and None otherwise. Markers before the zone do not count. |
| Courses.ZoneStaysOpen | main.go:64-67 | For streams without Correq tokens, which is every stream Tokens produces: once a prefix of the stream has opened the zone, every longer prefix keeps it open. |
| Courses.NoMarkerNoDependencies | main.go:42-47 | A body without a marker word yields kind None and no edges. |
| Courses.BareListIsAll | main.go:57-63 | "prerequisite: cosc 111, cosc 121" yields kind All and both course keys in order. |
| Courses.OneOfIsAny | main.go:68-71 | "prerequisite: one of" followed by two courses yields kind Any and both course keys. |
| Courses.OnlyAfterMarker | main.go:57-67 | A course mentioned before the marker is not an edge. The one after "prerequisite:" or "correquisite:" is. |
| Courses.RunCons | main.go:50-77 | Folding the switch from the back equals folding it from the front. |
| Courses.RunStep | main.go:51-76 | One NextToken call plus one pass through the switch leaves the eventual record unchanged. |
| Courses.CourseGraph.constructor | main.go:25 | The course graph starts empty. |
| Courses.ExtractDependencies | main.go:40-80 | The graph afterwards is the old one with key mapped to the record classified from the tokens of the body. |
| Courses.Drain | main.go:47-79 | The loop stores under key the classification of exactly the tokens the tokenizer still held. Nothing else in the graph changes. |
| Courses.Assemble | main.go:79 | After a sequence of writes, the keys are the old keys plus the written ones. |
| Courses.LastWriteWins | main.go:79 | A key keeps the record of its last write. |
| Courses.UnwrittenKeepsRecord | main.go:79 | A key that no write names keeps its old record. |
| Courses.MakeKeyFromTitle | main.go:27-33 | The key is a lower-case, whitespace-free word. It is the lower-cased first field without its last two characters, then "_", then the lower-cased second field unchanged. Its length follows from that. |
| Courses.TitleKeyParts | main.go:27-33 | When the first field is a subject plus two characters, the key is that subject, "_" and the second field exactly as spelled, whatever its characters. |
| Courses.TitleKeyKeepsTrailing | main.go:31-32 | A number that has a digit but ends in a non-digit, such as "111,", stays in the title key. The tokenizer's code for "subject number" strips it, so the two keys differ. |
| Courses.TitleKeyMatchesCourseCode | main.go:27-33 | When the first field is a subject plus two characters and the number ends in a digit, the title key is the course code the tokenizer reads from "subject number". |
| Courses.GetDescriptionFromTitle | main.go:35-38 | Splitting the description gives exactly the title's fields after the third. The description is single-spaced: no whitespace at either end and only single spaces between its words. It is "" when there are exactly three fields. |
| Courses.DescriptionDetermined | main.go:35-38 | Those two properties fix the description: any single-spaced string whose fields are the title's fields after the third is the description. |

## Left out

- `scrapeIntoCourseGraph` (main.go:84-106): HTTP fetching and HTML selection are I/O.
  Only its per-course sequence of writes is modelled, by `Assemble`.
- `saveToDotFile` (main.go:108-141): file output in the Graphviz format.
- `main` (main.go:149-162): I/O and the process exit.
- Text.ToLower: lower-cases ASCII letters only. Go's `strings.ToLower` also maps
  non-ASCII letters.
- Go strings are byte sequences; the model uses characters. Trailing stripping of non-digits
  and the two-character cut in `makeKeyFromTitle` agree with Go for ASCII text only.
- Courses.ExtractDependencies: the body must not end in "one" or "all", because there the
  Go program panics. `Tokenize.DrainsIff` and `Tokenize.Next` state that case.
- `Courses.Drain` is the loop of `extractDependencies` written as its own method. The
  behaviour is the same.
