/** The advisory-language screen: every string of a model's output, at any depth, is searched for
    the banned terms as whole words, case-insensitively, leftmost first and in the order of the
    term list. */
module AdvisoryScreen {
  import opened Prelude

  // -------------------------------------------------------------------------------------------
  // The tree walk
  // -------------------------------------------------------------------------------------------

  datatype Json =
    | Text(text: string)
    | Dict(entries: seq<Entry>)
    | List(items: seq<Json>)
    | Other

  datatype Entry = Entry(key: string, value: Json)

  /** Every string of the value, in order. */
  function IterText(v: Json): seq<string> {
    match v
    case Text(s) => [s]
    case Dict(entries) => IterEntries(entries)
    case List(items) => IterItems(items)
    case Other => []
  }

  function IterItems(items: seq<Json>): seq<string> {
    if items == [] then [] else IterText(items[0]) + IterItems(items[1..])
  }

  function IterEntries(entries: seq<Entry>): seq<string> {
    if entries == [] then [] else IterText(entries[0].value) + IterEntries(entries[1..])
  }

  /** What a path of positions leads to: one position per level of nesting. */
  function At(v: Json, path: seq<nat>): Option<Json> {
    if path == [] then Some(v)
    else
      match v
      case Dict(entries) => if path[0] < |entries| then At(entries[path[0]].value, path[1..]) else None
      case List(items) => if path[0] < |items| then At(items[path[0]], path[1..]) else None
      case _ => None
  }

  lemma {:induction false} WalkFindsItems(items: seq<Json>, n: nat, s: string)
    requires n < |items| && s in IterText(items[n])
    ensures s in IterItems(items)
  {
    if n > 0 {
      assert items[1..][n - 1] == items[n];
      WalkFindsItems(items[1..], n - 1, s);
    }
  }

  lemma {:induction false} WalkFindsEntries(entries: seq<Entry>, n: nat, s: string)
    requires n < |entries| && s in IterText(entries[n].value)
    ensures s in IterEntries(entries)
  {
    if n > 0 {
      assert entries[1..][n - 1] == entries[n];
      WalkFindsEntries(entries[1..], n - 1, s);
    }
  }

  /** The walk misses no string, however deep. */
  lemma {:induction false} WalkMissesNothing(v: Json, path: seq<nat>, s: string)
    requires At(v, path) == Some(Text(s))
    ensures s in IterText(v)
    decreases |path|
  {
    if path != [] {
      match v
      case Dict(entries) =>
        WalkMissesNothing(entries[path[0]].value, path[1..], s);
        WalkFindsEntries(entries, path[0], s);
      case List(items) =>
        WalkMissesNothing(items[path[0]], path[1..], s);
        WalkFindsItems(items, path[0], s);
    }
  }

  lemma AtCons(v: Json, n: nat, rest: seq<nat>)
    ensures At(v, []) == Some(v)
    ensures ([n] + rest)[1..] == rest
    ensures v.Dict? && n < |v.entries| ==> At(v, [n] + rest) == At(v.entries[n].value, rest)
    ensures v.List? && n < |v.items| ==> At(v, [n] + rest) == At(v.items[n], rest)
  {
    assert ([n] + rest)[1..] == rest;
  }

  /** The walk invents nothing: a string that it yields is a leaf of the tree. */
  lemma {:induction false} WalkInventsNothing(v: Json, s: string) returns (path: seq<nat>)
    requires s in IterText(v)
    ensures At(v, path) == Some(Text(s))
    decreases v
  {
    match v
    case Text(_) => path := [];
    case Dict(entries) =>
      var n := EntryWith(entries, s);
      var rest := WalkInventsNothing(entries[n].value, s);
      AtCons(v, n, rest);
      path := [n] + rest;
    case List(items) =>
      var n := ItemWith(items, s);
      var rest := WalkInventsNothing(items[n], s);
      AtCons(v, n, rest);
      path := [n] + rest;
  }

  lemma {:induction false} EntryWith(entries: seq<Entry>, s: string) returns (n: nat)
    requires s in IterEntries(entries)
    ensures n < |entries| && s in IterText(entries[n].value)
  {
    if s in IterText(entries[0].value) {
      n := 0;
    } else {
      n := EntryWith(entries[1..], s);
      n := n + 1;
    }
  }

  lemma {:induction false} ItemWith(items: seq<Json>, s: string) returns (n: nat)
    requires s in IterItems(items)
    ensures n < |items| && s in IterText(items[n])
  {
    if s in IterText(items[0]) {
      n := 0;
    } else {
      n := ItemWith(items[1..], s);
      n := n + 1;
    }
  }

  function Without(entries: seq<Entry>, key: string): (rest: seq<Entry>)
    ensures forall e :: e in rest <==> e in entries && e.key != key
  {
    if entries == [] then []
    else (if entries[0].key == key then [] else [entries[0]]) + Without(entries[1..], key)
  }

  /** The fields that are screened: all but the top-level disclaimer. */
  function Screened(fields: seq<Entry>): Json {
    Dict(Without(fields, "disclaimer"))
  }

  /** `s` is a string at some depth of some field other than the top-level disclaimer. */
  ghost predicate UserFacing(fields: seq<Entry>, s: string) {
    exists e, path :: e in fields && e.key != "disclaimer" && At(e.value, path) == Some(Text(s))
  }

  lemma ScreenedIsUserFacing(fields: seq<Entry>, s: string)
    ensures s in IterText(Screened(fields)) <==> UserFacing(fields, s)
  {
    var rest := Without(fields, "disclaimer");
    if s in IterText(Screened(fields)) {
      var n := EntryWith(rest, s);
      var path := WalkInventsNothing(rest[n].value, s);
      assert rest[n] in rest;
    }
    if UserFacing(fields, s) {
      var e, path :| e in fields && e.key != "disclaimer" && At(e.value, path) == Some(Text(s));
      assert e in rest;
      var n: nat :| n < |rest| && rest[n] == e;
      WalkMissesNothing(e.value, path, s);
      WalkFindsEntries(rest, n, s);
    }
  }

  // -------------------------------------------------------------------------------------------
  // Matching
  // -------------------------------------------------------------------------------------------

  /** Case folding as far as the terms' letters are concerned: ASCII, and the four other characters
      that match one of them when case is ignored. */
  function Fold(c: char): char {
    if 'A' <= c <= 'Z' then c - 'A' + 'a'
    else if c == '\U{017F}' then 's'
    else if c == '\U{212A}' then 'k'
    else if c == '\U{0130}' || c == '\U{0131}' then 'i'
    else c
  }

  /** Which characters match which: a letter is matched by itself, its upper-case form, and for i, k and
      s by the four special characters; a space by itself only. */
  lemma FoldIs(c: char, letter: char)
    requires 'a' <= letter <= 'z'
    ensures Fold(c) == letter <==>
      || c == letter
      || c as int == letter as int - 32
      || (letter == 's' && c == '\U{017F}')
      || (letter == 'k' && c == '\U{212A}')
      || (letter == 'i' && (c == '\U{0130}' || c == '\U{0131}'))
    ensures Fold(c) == ' ' <==> c == ' '
  {
  }

  /** A word class: letters are in it, the space is not; other characters are left open. */
  ghost predicate WordClass(w: char -> bool) {
    !w(' ') && forall c :: 'a' <= Fold(c) <= 'z' ==> w(c)
  }

  predicate Boundary(w: char -> bool, s: string, i: nat)
    requires i <= |s|
  {
    (i > 0 && w(s[i - 1])) != (i < |s| && w(s[i]))
  }

  /** The term stands at position `i` as a whole word or phrase. */
  predicate Occurs(w: char -> bool, s: string, i: nat, term: string) {
    && i + |term| <= |s|
    && (forall k :: 0 <= k < |term| ==> Fold(s[i + k]) == term[k])
    && Boundary(w, s, i) && Boundary(w, s, i + |term|)
  }

  /** For a term that begins and ends with a letter, the two boundaries say that it is not part of
      a longer word on either side, as "hold" is in "household". */
  lemma WholeWord(w: char -> bool, s: string, i: nat, term: string)
    requires WordClass(w) && term != ""
    requires 'a' <= term[0] <= 'z' && 'a' <= term[|term| - 1] <= 'z'
    ensures Occurs(w, s, i, term) <==>
      && i + |term| <= |s|
      && (forall k :: 0 <= k < |term| ==> Fold(s[i + k]) == term[k])
      && (i > 0 ==> !w(s[i - 1]))
      && (i + |term| < |s| ==> !w(s[i + |term|]))
  {
    if i + |term| <= |s| && forall k :: 0 <= k < |term| ==> Fold(s[i + k]) == term[k] {
      assert Fold(s[i + 0]) == term[0] && Fold(s[i + (|term| - 1)]) == term[|term| - 1];
    }
  }

  /** The alternative that matches at a position: the first of the list that does. */
  function FirstTerm(w: char -> bool, s: string, i: nat, terms: seq<string>): (r: Option<string>)
    ensures r.Some? ==> r.value in terms && i + |r.value| <= |s|
  {
    if terms == [] then None
    else if Occurs(w, s, i, terms[0]) then Some(terms[0])
    else FirstTerm(w, s, i, terms[1..])
  }

  lemma {:induction false} FirstTermMeans(w: char -> bool, s: string, i: nat, terms: seq<string>)
    ensures var r := FirstTerm(w, s, i, terms);
      && (r.Some? ==> Occurs(w, s, i, r.value))
      && (r.None? ==> forall n :: 0 <= n < |terms| ==> !Occurs(w, s, i, terms[n]))
  {
    if terms != [] && !Occurs(w, s, i, terms[0]) {
      FirstTermMeans(w, s, i, terms[1..]);
      assert forall n :: 0 < n < |terms| ==> terms[n] == terms[1..][n - 1];
    }
  }

  /** The alternative chosen is the first of the list that stands at the position. */
  lemma {:induction false} FirstTermIs(w: char -> bool, s: string, i: nat, terms: seq<string>) returns (n: nat)
    requires FirstTerm(w, s, i, terms).Some?
    ensures n < |terms| && FirstTerm(w, s, i, terms) == Some(terms[n]) && Occurs(w, s, i, terms[n])
    ensures forall k :: 0 <= k < n ==> !Occurs(w, s, i, terms[k])
  {
    if Occurs(w, s, i, terms[0]) {
      n := 0;
    } else {
      var k := FirstTermIs(w, s, i, terms[1..]);
      n := k + 1;
      forall j | 0 <= j < n
        ensures !Occurs(w, s, i, terms[j])
      {
        assert j > 0 ==> terms[j] == terms[1..][j - 1];
      }
    }
  }

  datatype Match = Match(at: nat, term: string)

  /** The leftmost match from `i` on. */
  function NextMatch(w: char -> bool, s: string, i: nat, terms: seq<string>): (r: Option<Match>)
    ensures r.Some? ==>
              i <= r.value.at && r.value.at + |r.value.term| <= |s| && r.value.term in terms
    decreases |s| + 1 - i
  {
    if i > |s| then None
    else
      var found := FirstTerm(w, s, i, terms);
      if found.Some? then Some(Match(i, found.value)) else NextMatch(w, s, i + 1, terms)
  }

  ghost predicate NothingBetween(w: char -> bool, s: string, from: int, to: int, terms: seq<string>) {
    forall j: nat :: from <= j < to ==> FirstTerm(w, s, j, terms).None?
  }

  lemma {:induction false} NextMatchMeans(w: char -> bool, s: string, i: nat, terms: seq<string>)
    ensures var r := NextMatch(w, s, i, terms);
      && (r.Some? ==> FirstTerm(w, s, r.value.at, terms) == Some(r.value.term))
      && (r.Some? ==> NothingBetween(w, s, i, r.value.at, terms))
      && (r.None? ==> NothingBetween(w, s, i, |s| + 1, terms))
    decreases |s| + 1 - i
  {
    if i <= |s| && FirstTerm(w, s, i, terms).None? {
      NextMatchMeans(w, s, i + 1, terms);
    }
  }

  predicate NoEmptyTerm(terms: seq<string>) {
    forall n :: 0 <= n < |terms| ==> |terms[n]| > 0
  }

  /** All matches from `i` on, each search resuming where the last match ended. */
  function FindAll(w: char -> bool, s: string, i: nat, terms: seq<string>): seq<Match>
    requires NoEmptyTerm(terms)
    decreases |s| + 1 - i
  {
    var m := NextMatch(w, s, i, terms);
    if m.None? then []
    else [m.value] + FindAll(w, s, m.value.at + |m.value.term|, terms)
  }

  ghost predicate HasOccurrence(w: char -> bool, s: string, terms: seq<string>) {
    exists i: nat, term: string :: term in terms && Occurs(w, s, i, term)
  }

  /** A text yields a match exactly when some term occurs in it, wherever, overlapping or not. */
  lemma MatchesIffOccurs(w: char -> bool, s: string, terms: seq<string>)
    requires NoEmptyTerm(terms)
    ensures FindAll(w, s, 0, terms) != [] <==> HasOccurrence(w, s, terms)
  {
    var m := NextMatch(w, s, 0, terms);
    NextMatchMeans(w, s, 0, terms);
    if m.Some? {
      FirstTermMeans(w, s, m.value.at, terms);
    }
    forall i: nat, term: string | term in terms && Occurs(w, s, i, term)
      ensures FirstTerm(w, s, i, terms).Some?
    {
      FirstTermMeans(w, s, i, terms);
    }
  }

  /** Where the search for match `n` starts. */
  function SearchStart(from: nat, ms: seq<Match>, n: nat): nat
    requires n <= |ms|
  {
    if n == 0 then from else ms[n - 1].at + |ms[n - 1].term|
  }

  /** Match `n` starts at the first position from its search start on where any term occurs, and
      takes the first term of the list that occurs there. */
  ghost predicate LeftmostAt(w: char -> bool, s: string, from: nat, terms: seq<string>, ms: seq<Match>, n: nat)
    requires n < |ms|
  {
    && SearchStart(from, ms, n) <= ms[n].at
    && FirstTerm(w, s, ms[n].at, terms) == Some(ms[n].term)
    && NothingBetween(w, s, SearchStart(from, ms, n), ms[n].at, terms)
  }

  /** The matches are what leftmost, ordered, non-overlapping search promises, and nothing occurs
      after the last. */
  ghost predicate Leftmost(w: char -> bool, s: string, from: nat, terms: seq<string>, ms: seq<Match>) {
    && (forall n: nat :: n < |ms| ==> LeftmostAt(w, s, from, terms, ms, n))
    && NothingBetween(w, s, SearchStart(from, ms, |ms|), |s| + 1, terms)
  }

  lemma {:induction false} FindAllIsLeftmost(w: char -> bool, s: string, from: nat, terms: seq<string>)
    requires NoEmptyTerm(terms)
    ensures Leftmost(w, s, from, terms, FindAll(w, s, from, terms))
    decreases |s| + 1 - from
  {
    var m := NextMatch(w, s, from, terms);
    NextMatchMeans(w, s, from, terms);
    if m.Some? {
      var next := m.value.at + |m.value.term|;
      FindAllIsLeftmost(w, s, next, terms);
      var rest := FindAll(w, s, next, terms);
      var all := FindAll(w, s, from, terms);
      assert all == [m.value] + rest;
      forall n: nat | n < |all|
        ensures LeftmostAt(w, s, from, terms, all, n)
      {
        if n > 0 {
          assert all[n] == rest[n - 1] && LeftmostAt(w, s, next, terms, rest, n - 1);
          assert SearchStart(from, all, n) == SearchStart(next, rest, n - 1);
        }
      }
      assert SearchStart(from, all, |all|) == SearchStart(next, rest, |rest|);
    }
  }

  /** Matches inside a text of this length from `from` on, each after the end of every one before. */
  predicate Apart(ms: seq<Match>, from: nat, length: nat) {
    && (forall n :: 0 <= n < |ms| ==> from <= ms[n].at && ms[n].at + |ms[n].term| <= length)
    && (forall n, k :: 0 <= n < k < |ms| ==> ms[n].at + |ms[n].term| <= ms[k].at)
  }

  lemma ApartCons(ms: seq<Match>, m: Match, rest: seq<Match>, from: nat, length: nat)
    requires ms == [m] + rest && Apart(rest, m.at + |m.term|, length)
    requires from <= m.at && m.at + |m.term| <= length
    ensures Apart(ms, from, length)
  {
    assert forall n :: 0 < n < |ms| ==> ms[n] == rest[n - 1];
  }

  /** The matches of a text do not overlap. */
  lemma {:induction false} MatchesDoNotOverlap(w: char -> bool, s: string, from: nat, terms: seq<string>)
    requires NoEmptyTerm(terms)
    ensures Apart(FindAll(w, s, from, terms), from, |s|)
    decreases |s| + 1 - from
  {
    var m := NextMatch(w, s, from, terms);
    FindAllStep(w, s, from, terms);
    if m.Some? {
      var next := m.value.at + |m.value.term|;
      MatchesDoNotOverlap(w, s, next, terms);
      ApartCons(FindAll(w, s, from, terms), m.value, FindAll(w, s, next, terms), from, |s|);
    }
  }

  // -------------------------------------------------------------------------------------------
  // The term list
  // -------------------------------------------------------------------------------------------

  function AdvisoryTerms(): (terms: seq<string>)
    ensures NoEmptyTerm(terms)
  {
    ["strong buy", "strong sell", "buy the dip"] + OtherTerms()
  }

  function OtherTerms(): (terms: seq<string>)
    ensures NoEmptyTerm(terms)
  {
    [
      "book profits", "book profit",
      "book gains", "book gain",
      "take profits", "take profit",
      "square off", "go long",
      "top pick",
      "accumulate",
      "overweight", "underweight",
      "buy", "sell", "hold",
      "switch", "avoid", "caution"
    ]
  }

  /** Every banned term is listed, and nothing else. */
  lemma BannedTerms(term: string)
    ensures term in AdvisoryTerms() <==>
      term in {"strong buy", "strong sell", "buy the dip",
               "book profits", "book profit", "book gains", "book gain", "take profits", "take profit",
               "square off", "go long", "top pick", "accumulate", "overweight", "underweight",
               "buy", "sell", "hold", "switch", "avoid", "caution"}
  {
    assert AdvisoryTerms() ==
      ["strong buy", "strong sell", "buy the dip",
       "book profits", "book profit", "book gains", "book gain", "take profits", "take profit",
       "square off", "go long", "top pick", "accumulate", "overweight", "underweight",
       "buy", "sell", "hold", "switch", "avoid", "caution"];
  }

  /** A phrase made of a word, a space and a last word contains that last word as a whole word. */
  lemma LastWordOccurs(w: char -> bool, s: string, i: nat, phrase: string, k: nat)
    requires WordClass(w) && Occurs(w, s, i, phrase)
    requires 0 < k < |phrase| && phrase[k - 1] == ' ' && 'a' <= phrase[k] <= 'z'
    ensures Occurs(w, s, i + k, phrase[k..])
  {
    assert Fold(s[i + (k - 1)]) == ' ' && Fold(s[i + k]) == phrase[k];
    assert s[i + k - 1] == ' ';
    forall j | 0 <= j < |phrase| - k
      ensures Fold(s[i + k + j]) == phrase[k..][j]
    {
      assert Fold(s[i + (k + j)]) == phrase[k + j];
    }
  }

  /** A phrase that starts with a word and a space contains that word as a whole word. */
  lemma FirstWordOccurs(w: char -> bool, s: string, i: nat, phrase: string, k: nat)
    requires WordClass(w) && Occurs(w, s, i, phrase)
    requires 0 < k < |phrase| && phrase[k] == ' ' && 'a' <= phrase[k - 1] <= 'z'
    ensures Occurs(w, s, i, phrase[..k])
  {
    assert Fold(s[i + k]) == ' ' && Fold(s[i + (k - 1)]) == phrase[k - 1];
    assert s[i + k] == ' ';
  }

  lemma MoreTerms(w: char -> bool, s: string, some: seq<string>, more: seq<string>)
    requires HasOccurrence(w, s, some) && forall term :: term in some ==> term in more
    ensures HasOccurrence(w, s, more)
  {
    var i: nat, term: string :| term in some && Occurs(w, s, i, term);
    assert term in more;
  }

  lemma OneTerm(w: char -> bool, s: string, i: nat, term: string, terms: seq<string>)
    requires Occurs(w, s, i, term) && term in terms
    ensures HasOccurrence(w, s, terms)
  {
  }

  /** The phrase starts with a word of the list and a space, or ends in a space and such a word. */
  predicate HasWord(phrase: string, words: seq<string>) {
    StartsWith(phrase, 3, words) || EndsWith(phrase, 7, words)
  }

  predicate StartsWith(phrase: string, k: nat, words: seq<string>) {
    0 < k < |phrase| && phrase[k] == ' ' && 'a' <= phrase[k - 1] <= 'z' && phrase[..k] in words
  }

  predicate EndsWith(phrase: string, k: nat, words: seq<string>) {
    0 < k < |phrase| && phrase[k - 1] == ' ' && 'a' <= phrase[k] <= 'z' && phrase[k..] in words
  }

  lemma PhrasesHaveWords()
    ensures HasWord("strong buy", OtherTerms())
    ensures HasWord("strong sell", OtherTerms())
    ensures HasWord("buy the dip", OtherTerms())
  {
    assert OtherTerms()[12] == "buy" && OtherTerms()[13] == "sell";
    assert "buy the dip"[..3] == "buy" && "strong buy"[7..] == "buy" && "strong sell"[7..] == "sell";
  }

  /** Such a phrase never occurs without the word. */
  lemma PhraseBringsWord(w: char -> bool, s: string, i: nat, phrase: string, words: seq<string>)
    requires WordClass(w) && Occurs(w, s, i, phrase) && HasWord(phrase, words)
    ensures HasOccurrence(w, s, words)
  {
    if StartsWith(phrase, 3, words) {
      FirstWordOccurs(w, s, i, phrase, 3);
      OneTerm(w, s, i, phrase[..3], words);
    } else {
      LastWordOccurs(w, s, i, phrase, 7);
      OneTerm(w, s, i + 7, phrase[7..], words);
    }
  }

  /** Dropping "strong buy", "strong sell" and "buy the dip" from the list never changes whether a
      text is rejected. */
  lemma ThreePhrasesAreRedundant(w: char -> bool, s: string)
    requires WordClass(w)
    ensures HasOccurrence(w, s, AdvisoryTerms()) <==> HasOccurrence(w, s, OtherTerms())
  {
    if HasOccurrence(w, s, AdvisoryTerms()) {
      var i: nat, term: string :| term in AdvisoryTerms() && Occurs(w, s, i, term);
      if term in OtherTerms() {
        OneTerm(w, s, i, term, OtherTerms());
      } else {
        PhrasesHaveWords();
        PhraseBringsWord(w, s, i, term, OtherTerms());
      }
    }
    if HasOccurrence(w, s, OtherTerms()) {
      MoreTerms(w, s, OtherTerms(), AdvisoryTerms());
    }
  }

  // -------------------------------------------------------------------------------------------
  // The validator as code
  // -------------------------------------------------------------------------------------------

  datatype Verdict = Accepted | SchemaError | Advisory(hits: seq<Match>)

  /** The hits of a list of texts. */
  function Hits(w: char -> bool, texts: seq<string>, terms: seq<string>): seq<Match>
    requires NoEmptyTerm(terms)
  {
    if texts == [] then []
    else Hits(w, texts[..|texts| - 1], terms) + FindAll(w, texts[|texts| - 1], 0, terms)
  }

  lemma {:induction false} HitsIff(w: char -> bool, texts: seq<string>, terms: seq<string>)
    requires NoEmptyTerm(terms)
    ensures Hits(w, texts, terms) != [] <==> exists s :: s in texts && HasOccurrence(w, s, terms)
  {
    if texts != [] {
      var front, s := texts[..|texts| - 1], texts[|texts| - 1];
      HitsIff(w, front, terms);
      MatchesIffOccurs(w, s, terms);
      assert texts == front + [s];
    }
  }

  lemma FindAllStep(w: char -> bool, s: string, i: nat, terms: seq<string>)
    requires NoEmptyTerm(terms)
    ensures var m := NextMatch(w, s, i, terms);
      && (m.None? ==> FindAll(w, s, i, terms) == [])
      && (m.Some? ==>
            && |m.value.term| > 0 && m.value.at + |m.value.term| <= |s|
            && FindAll(w, s, i, terms) ==
               [m.value] + FindAll(w, s, m.value.at + |m.value.term|, terms))
  {
  }

  /** Every match of one text, by repeated search. */
  method Scan(w: char -> bool, text: string, terms: seq<string>) returns (hits: seq<Match>)
    requires NoEmptyTerm(terms)
    ensures hits == FindAll(w, text, 0, terms)
  {
    hits := [];
    var i := 0;
    ghost var rest := FindAll(w, text, 0, terms);
    while true
      invariant rest == FindAll(w, text, i, terms)
      invariant hits + rest == FindAll(w, text, 0, terms)
      decreases |text| + 1 - i
    {
      FindAllStep(w, text, i, terms);
      var m := NextMatch(w, text, i, terms);
      if m.None? {
        return;
      }
      i := m.value.at + |m.value.term|;
      assert hits + rest == (hits + [m.value]) + rest[1..];
      rest := rest[1..];
      hits := hits + [m.value];
    }
  }

  /** The hits of all texts. */
  method ScanAll(w: char -> bool, texts: seq<string>, terms: seq<string>) returns (hits: seq<Match>)
    requires NoEmptyTerm(terms)
    ensures hits == Hits(w, texts, terms)
  {
    hits := [];
    assert texts[..0] == [];
    for n := 0 to |texts|
      invariant hits == Hits(w, texts[..n], terms)
    {
      var found := Scan(w, texts[n], terms);
      assert texts[..n + 1][..n] == texts[..n];
      hits := hits + found;
    }
    assert texts[..|texts|] == texts;
  }

  lemma RejectedIff(w: char -> bool, fields: seq<Entry>, terms: seq<string>)
    requires NoEmptyTerm(terms)
    ensures Hits(w, IterText(Screened(fields)), terms) != [] <==>
            exists s :: UserFacing(fields, s) && HasOccurrence(w, s, terms)
  {
    var texts := IterText(Screened(fields));
    HitsIff(w, texts, terms);
    forall s
      ensures s in texts <==> UserFacing(fields, s)
    {
      ScreenedIsUserFacing(fields, s);
    }
  }

  /** The validator. A schema-valid output is rejected exactly when a user-facing string, at any
      depth outside the top-level disclaimer, contains a banned term as a whole word. */
  method Validate(w: char -> bool, schemaValid: bool, fields: seq<Entry>) returns (v: Verdict)
    ensures v.SchemaError? <==> !schemaValid
    ensures v.Advisory? <==>
            schemaValid && exists s :: UserFacing(fields, s) && HasOccurrence(w, s, AdvisoryTerms())
    ensures v.Advisory? ==> v.hits == Hits(w, IterText(Screened(fields)), AdvisoryTerms())
  {
    if !schemaValid {
      return SchemaError;
    }
    var hits := ScanAll(w, IterText(Screened(fields)), AdvisoryTerms());
    RejectedIff(w, fields, AdvisoryTerms());
    v := if hits == [] then Accepted else Advisory(hits);
  }
}
