/** Full-text search over decrypted messages: AND matching, scoring, stable ranking, paging. */
module Search {
  import opened Bytes
  import opened Terms
  import opened Models

  datatype Options = Options(channelId: Option<string>, limit: Option<int>, offset: Option<int>)

  /** A match; `position` is the message's place in the collection, which a stable sort keeps. */
  datatype Hit = Hit(message: Message, position: nat, score: nat, snippets: seq<string>)

  /** Lower-casing, one character to one character. */
  type Lowering = char -> char

  /** White space goes to white space, and nothing else does, as in Unicode's case mapping. */
  ghost predicate KeepsSpaces(lower: Lowering) {
    forall c :: IsSpace(lower(c)) <==> IsSpace(c)
  }

  function Lower(lower: Lowering, s: string): (r: string)
    ensures |r| == |s|
  {
    seq(|s|, i requires 0 <= i < |s| => lower(s[i]))
  }

  // ---- the query -----------------------------------------------------------

  function TrimStart(s: string): (r: string)
    ensures |r| <= |s|
  {
    if s != [] && IsSpace(s[0]) then TrimStart(s[1..]) else s
  }

  function TrimEnd(s: string): string {
    if s != [] && IsSpace(s[|s| - 1]) then TrimEnd(s[..|s| - 1]) else s
  }

  /** The length of the leading run without spaces. */
  function WordLength(s: string): (n: nat)
    ensures n <= |s| && (n < |s| ==> IsSpace(s[n]))
    ensures forall i | 0 <= i < n :: !IsSpace(s[i])
  {
    if s == [] || IsSpace(s[0]) then 0 else 1 + WordLength(s[1..])
  }

  predicate IsWord(w: string) {
    w != "" && forall i | 0 <= i < |w| :: !IsSpace(w[i])
  }

  /** Splitting on white space, empty pieces dropped. */
  function Words(s: string): (ws: seq<string>)
    ensures forall k | 0 <= k < |ws| :: IsWord(ws[k])
    decreases |s|
  {
    if s == [] then []
    else if IsSpace(s[0]) then Words(s[1..])
    else [s[..WordLength(s)]] + Words(s[WordLength(s)..])
  }

  predicate IsGap(g: string) {
    forall i | 0 <= i < |g| :: IsSpace(g[i])
  }

  /** Gaps of white space before, between and after words, not empty where they part two words. */
  predicate Parts(gaps: seq<string>, ws: seq<string>) {
    && |gaps| == |ws| + 1
    && (forall k | 0 <= k < |gaps| :: IsGap(gaps[k]))
    && (forall k | 0 < k < |ws| :: gaps[k] != "")
  }

  function Woven(gaps: seq<string>, ws: seq<string>): string
    requires |gaps| == |ws| + 1
  {
    if ws == [] then gaps[0] else gaps[0] + (ws[0] + Woven(gaps[1..], ws[1..]))
  }

  lemma {:induction false} WordLengthIs(s: string, n: nat)
    requires n <= |s| && (n < |s| ==> IsSpace(s[n])) && forall i | 0 <= i < n :: !IsSpace(s[i])
    ensures WordLength(s) == n
  {
    if n == 0 {
    } else {
      WordLengthIs(s[1..], n - 1);
    }
  }

  lemma {:induction false} GapIsSkipped(gap: string, s: string)
    requires IsGap(gap)
    ensures Words(gap + s) == Words(s)
  {
    if gap == "" {
      assert gap + s == s;
    } else {
      assert (gap + s)[1..] == gap[1..] + s;
      GapIsSkipped(gap[1..], s);
    }
  }

  lemma {:induction false} WordIsTaken(w: string, s: string)
    requires IsWord(w) && (s != "" ==> IsSpace(s[0]))
    ensures Words(w + s) == [w] + Words(s)
  {
    WordLengthIs(w + s, |w|);
    assert (w + s)[..|w|] == w && (w + s)[|w|..] == s;
  }

  lemma {:induction false} PartsTail(gaps: seq<string>, ws: seq<string>)
    requires Parts(gaps, ws) && ws != []
    ensures Parts(gaps[1..], ws[1..]) && (ws[1..] != [] ==> gaps[1..][0] != "")
  {
  }

  lemma {:induction false} WovenStartsWithSpace(gaps: seq<string>, ws: seq<string>)
    requires Parts(gaps, ws) && (ws != [] ==> gaps[0] != "")
    ensures Woven(gaps, ws) != "" ==> IsSpace(Woven(gaps, ws)[0])
  {
    if gaps[0] != "" {
      assert Woven(gaps, ws)[0] == gaps[0][0];
    }
  }

  lemma {:induction false} SplitUndoesWeaving(gaps: seq<string>, ws: seq<string>)
    requires Parts(gaps, ws) && forall k | 0 <= k < |ws| :: IsWord(ws[k])
    ensures Words(Woven(gaps, ws)) == ws
  {
    if ws == [] {
      GapIsSkipped(gaps[0], "");
      assert gaps[0] + "" == gaps[0];
    } else {
      PartsTail(gaps, ws);
      SplitUndoesWeaving(gaps[1..], ws[1..]);
      var rest := Woven(gaps[1..], ws[1..]);
      WovenStartsWithSpace(gaps[1..], ws[1..]);
      WordIsTaken(ws[0], rest);
      GapIsSkipped(gaps[0], ws[0] + rest);
      assert ws == [ws[0]] + ws[1..];
    }
  }

  /** The white space of a text, around its words. */
  function Gaps(s: string): (gaps: seq<string>)
    ensures gaps != []
    decreases |s|
  {
    if s == "" then [""]
    else if IsSpace(s[0]) then
      var rest := Gaps(s[1..]);
      [[s[0]] + rest[0]] + rest[1..]
    else [""] + Gaps(s[WordLength(s)..])
  }

  lemma {:induction false} SpaceStartsGap(s: string)
    requires s != "" && IsSpace(s[0])
    ensures Gaps(s)[0] != ""
  {
  }

  lemma {:induction false} GapGrows(c: char, gaps: seq<string>, ws: seq<string>)
    requires Parts(gaps, ws) && IsSpace(c)
    ensures var more := [[c] + gaps[0]] + gaps[1..];
            Parts(more, ws) && Woven(more, ws) == [c] + Woven(gaps, ws)
  {
    var more := [[c] + gaps[0]] + gaps[1..];
    assert more[1..] == gaps[1..];
    assert forall k | 0 < k < |gaps| :: more[k] == gaps[k];
    if ws != [] {
      var rest := ws[0] + Woven(gaps[1..], ws[1..]);
      assert [c] + gaps[0] + rest == [c] + (gaps[0] + rest);
    }
  }

  lemma {:induction false} WordGrows(w: string, gaps: seq<string>, ws: seq<string>)
    requires Parts(gaps, ws) && (ws != [] ==> gaps[0] != "")
    ensures Parts([""] + gaps, [w] + ws) && Woven([""] + gaps, [w] + ws) == w + Woven(gaps, ws)
  {
    var (more, longer) := ([""] + gaps, [w] + ws);
    assert more[1..] == gaps && longer[1..] == ws;
    assert forall k | 0 < k < |more| :: more[k] == gaps[k - 1];
  }

  lemma {:induction false} TextIsWoven(s: string)
    ensures Parts(Gaps(s), Words(s)) && Woven(Gaps(s), Words(s)) == s
    decreases |s|
  {
    if s == "" {
    } else if IsSpace(s[0]) {
      TextIsWoven(s[1..]);
      GapGrows(s[0], Gaps(s[1..]), Words(s[1..]));
    } else {
      var n := WordLength(s);
      TextIsWoven(s[n..]);
      if n < |s| {
        SpaceStartsGap(s[n..]);
      }
      WordGrows(s[..n], Gaps(s[n..]), Words(s[n..]));
    }
  }

  /** The terms are exactly the pieces between white space: a text has these words, in this order, if
      and only if it is made of them with gaps of white space around and between. */
  lemma {:induction false} WordsIff(s: string, ws: seq<string>)
    ensures Words(s) == ws <==>
            && (forall k | 0 <= k < |ws| :: IsWord(ws[k]))
            && exists gaps :: Parts(gaps, ws) && Woven(gaps, ws) == s
  {
    if Words(s) == ws {
      TextIsWoven(s);
    } else if (forall k | 0 <= k < |ws| :: IsWord(ws[k])) && exists gaps :: Parts(gaps, ws) && Woven(gaps, ws) == s {
      var gaps :| Parts(gaps, ws) && Woven(gaps, ws) == s;
      SplitUndoesWeaving(gaps, ws);
    }
  }

  function QueryTerms(lower: Lowering, query: string): seq<string> {
    Words(Lower(lower, TrimEnd(TrimStart(query))))
  }

  lemma {:induction false} TrimStartKeepsWords(s: string)
    ensures Words(TrimStart(s)) == Words(s)
  {
    if s != [] && IsSpace(s[0]) {
      TrimStartKeepsWords(s[1..]);
    }
  }

  lemma {:induction false} TrailingGapIsDropped(s: string, c: char)
    requires IsSpace(c)
    ensures Words(s + [c]) == Words(s)
    decreases |s|
  {
    if s == "" {
      assert ("" + [c])[1..] == "";
    } else if IsSpace(s[0]) {
      assert (s + [c])[1..] == s[1..] + [c];
      TrailingGapIsDropped(s[1..], c);
    } else {
      var n := WordLength(s);
      WordLengthIs(s + [c], n);
      assert (s + [c])[..n] == s[..n] && (s + [c])[n..] == s[n..] + [c];
      TrailingGapIsDropped(s[n..], c);
    }
  }

  lemma {:induction false} TrimEndKeepsWords(s: string)
    ensures Words(TrimEnd(s)) == Words(s)
  {
    if s != [] && IsSpace(s[|s| - 1]) {
      var (prefix, last) := (s[..|s| - 1], s[|s| - 1]);
      TrimEndKeepsWords(prefix);
      TrailingGapIsDropped(prefix, last);
      assert s == prefix + [last];
    }
  }

  function LowerAll(lower: Lowering, ws: seq<string>): (r: seq<string>)
    ensures |r| == |ws| && forall k | 0 <= k < |ws| :: r[k] == Lower(lower, ws[k])
  {
    seq(|ws|, k requires 0 <= k < |ws| => Lower(lower, ws[k]))
  }

  lemma {:induction false} LowerSlices(lower: Lowering, s: string, n: nat)
    requires n <= |s|
    ensures Lower(lower, s)[..n] == Lower(lower, s[..n]) && Lower(lower, s)[n..] == Lower(lower, s[n..])
  {
  }

  lemma {:induction false} LowerKeepsWordLength(lower: Lowering, s: string)
    requires KeepsSpaces(lower)
    ensures WordLength(Lower(lower, s)) == WordLength(s)
  {
    WordLengthIs(Lower(lower, s), WordLength(s));
  }

  lemma {:induction false} LowerAllCons(lower: Lowering, w: string, ws: seq<string>)
    ensures LowerAll(lower, [w] + ws) == [Lower(lower, w)] + LowerAll(lower, ws)
  {
  }

  lemma {:induction false} LowerKeepsWords(lower: Lowering, s: string)
    requires KeepsSpaces(lower)
    ensures Words(Lower(lower, s)) == LowerAll(lower, Words(s))
    decreases |s|
  {
    if s == "" {
    } else if IsSpace(s[0]) {
      LowerSlices(lower, s, 1);
      LowerKeepsWords(lower, s[1..]);
    } else {
      var n := WordLength(s);
      LowerKeepsWordLength(lower, s);
      LowerSlices(lower, s, n);
      LowerKeepsWords(lower, s[n..]);
      LowerAllCons(lower, s[..n], Words(s[n..]));
    }
  }

  /** The terms of a query are its words in lower case. */
  lemma {:induction false} QueryTermsAreWords(lower: Lowering, query: string)
    requires KeepsSpaces(lower)
    ensures |QueryTerms(lower, query)| == |Words(query)|
    ensures forall k | 0 <= k < |Words(query)| :: QueryTerms(lower, query)[k] == Lower(lower, Words(query)[k])
  {
    TrimStartKeepsWords(query);
    TrimEndKeepsWords(TrimStart(query));
    LowerKeepsWords(lower, TrimEnd(TrimStart(query)));
  }

  // ---- one term ------------------------------------------------------------

  predicate OccursAt(text: string, term: string, i: nat) {
    i + |term| <= |text| && text[i..i + |term|] == term
  }

  /** The first occurrence at or after `start`. */
  function IndexFrom(text: string, term: string, start: nat): (r: Option<nat>)
    requires start <= |text|
    ensures r.Some? ==> start <= r.value <= |text| && OccursAt(text, term, r.value)
    ensures forall j | start <= j < (if r.Some? then r.value else |text| + 1) :: !OccursAt(text, term, j)
    decreases |text| - start
  {
    if OccursAt(text, term, start) then Some(start)
    else if start == |text| then None
    else IndexFrom(text, term, start + 1)
  }

  function IndexOf(text: string, term: string): Option<nat> {
    IndexFrom(text, term, 0)
  }

  /** One trailing star is a prefix mark, not part of the term. */
  function Clean(term: string): string {
    if term != [] && term[|term| - 1] == '*' then term[..|term| - 1] else term
  }

  /** One star is dropped from the end, and nothing else. */
  lemma {:induction false} CleanDropsOneStar(term: string)
    ensures Clean(term + "*") == term
    ensures (term == "" || term[|term| - 1] != '*') ==> Clean(term) == term
  {
  }

  predicate IsBoundary(text: string, i: nat)
    requires i <= |text|
  {
    i == 0 || IsSpace(text[i - 1]) || text[i - 1] in ".,!?;:"
  }

  predicate Contains(text: string, term: string) {
    IndexOf(text, Clean(term)).Some?
  }

  function TermScore(text: string, term: string): nat {
    match IndexOf(text, Clean(term))
    case None => 0
    case Some(i) => if IsBoundary(text, i) then 10 else 5
  }

  function Snippet(original: string, i: nat, length: nat): string
    requires i <= |original|
  {
    var lo := if i < 20 then 0 else i - 20;
    var hi := if i + length + 20 < |original| then i + length + 20 else |original|;
    "..." + original[lo..hi] + "..."
  }

  ghost predicate Occurs(text: string, term: string) {
    exists i: nat :: OccursAt(text, Clean(term), i)
  }

  /** Containing a term is having it as a substring somewhere. */
  lemma ContainsIffOccurs(text: string, term: string)
    ensures Contains(text, term) <==> Occurs(text, term)
  {
    if i: nat :| OccursAt(text, Clean(term), i) {
      assert i <= |text|;
    }
  }

  // ---- one message ---------------------------------------------------------

  predicate MatchesAll(text: string, terms: seq<string>) {
    forall k | 0 <= k < |terms| :: Contains(text, terms[k])
  }

  function Score(text: string, terms: seq<string>): nat {
    if terms == [] then 0 else Score(text, terms[..|terms| - 1]) + TermScore(text, terms[|terms| - 1])
  }

  function TermSnippet(original: string, text: string, term: string): string
    requires |text| == |original|
  {
    match IndexOf(text, Clean(term))
    case None => ""
    case Some(i) => Snippet(original, i, |Clean(term)|)
  }

  function Snippets(original: string, text: string, terms: seq<string>): seq<string>
    requires |text| == |original|
  {
    if terms == [] then []
    else Snippets(original, text, terms[..|terms| - 1]) + [TermSnippet(original, text, terms[|terms| - 1])]
  }

  function TextOf(m: Message): string {
    if m.text.Some? then m.text.value else ""
  }

  function LowerText(lower: Lowering, m: Message): (r: string)
    ensures |r| == |TextOf(m)|
  {
    Lower(lower, TextOf(m))
  }

  predicate Matches(lower: Lowering, m: Message, terms: seq<string>) {
    MatchesAll(LowerText(lower, m), terms)
  }

  function HitFor(lower: Lowering, m: Message, position: nat, terms: seq<string>): Hit {
    Hit(m, position, Score(LowerText(lower, m), terms), Snippets(TextOf(m), LowerText(lower, m), terms))
  }

  /** A test of one message at its place. */
  type Matcher = (Message, nat) -> Option<Hit>

  function Matching(lower: Lowering, terms: seq<string>): Matcher {
    (m: Message, p: nat) => if Matches(lower, m, terms) then Some(HitFor(lower, m, p, terms)) else None
  }

  lemma ScoreOneMore(text: string, terms: seq<string>, t: string)
    ensures Score(text, terms + [t]) == Score(text, terms) + TermScore(text, t)
  {
    assert (terms + [t])[..|terms|] == terms;
  }

  lemma SnippetsOneMore(original: string, text: string, terms: seq<string>, t: string)
    requires |text| == |original|
    ensures Snippets(original, text, terms + [t]) == Snippets(original, text, terms) + [TermSnippet(original, text, t)]
  {
    assert (terms + [t])[..|terms|] == terms;
  }

  /** The body of the inner loop: what one term adds, or that it is missing. */
  method TryTerm(original: string, text: string, term: string) returns (r: Option<(nat, string)>)
    requires |text| == |original|
    ensures r.Some? <==> Contains(text, term)
    ensures r.Some? ==> r.value == (TermScore(text, term), TermSnippet(original, text, term))
  {
    var clean := Clean(term);
    var i := IndexOf(text, clean);
    if i.None? {
      return None;
    }
    r := Some((if IsBoundary(text, i.value) then 10 else 5, Snippet(original, i.value, |clean|)));
  }

  /** The inner loop: stop at the first term that is missing. */
  method MatchMessage(lower: Lowering, m: Message, position: nat, terms: seq<string>) returns (r: Option<Hit>)
    ensures r == if Matches(lower, m, terms) then Some(HitFor(lower, m, position, terms)) else None
  {
    var original, text := TextOf(m), LowerText(lower, m);
    var score, snippets := 0, [];
    for k := 0 to |terms|
      invariant MatchesAll(text, terms[..k])
      invariant score == Score(text, terms[..k]) && snippets == Snippets(original, text, terms[..k])
    {
      var found := TryTerm(original, text, terms[k]);
      if found.None? {
        return None;
      }
      assert terms[..k + 1] == terms[..k] + [terms[k]];
      ScoreOneMore(text, terms[..k], terms[k]);
      SnippetsOneMore(original, text, terms[..k], terms[k]);
      score, snippets := score + found.value.0, snippets + [found.value.1];
    }
    assert terms[..|terms|] == terms;
    r := Some(Hit(m, position, score, snippets));
  }

  /** How many terms first occur at the start of a word. */
  function BoundaryCount(text: string, terms: seq<string>): (n: nat)
    ensures n <= |terms|
  {
    if terms == [] then 0
    else
      var i := IndexOf(text, Clean(terms[|terms| - 1]));
      BoundaryCount(text, terms[..|terms| - 1]) + (if i.Some? && IsBoundary(text, i.value) then 1 else 0)
  }

  /** A matching message scores five for every term and five more for each at a word start. */
  lemma {:induction false} ScoreCountsBoundaries(text: string, terms: seq<string>)
    requires MatchesAll(text, terms)
    ensures Score(text, terms) == 5 * |terms| + 5 * BoundaryCount(text, terms)
  {
    if terms == [] {
    } else {
      assert Contains(text, terms[|terms| - 1]);
      ScoreCountsBoundaries(text, terms[..|terms| - 1]);
    }
  }

  function Least(a: nat, b: nat): nat {
    if a < b then a else b
  }

  /** The snippet shows the passage it was cut around, with up to 20 characters of the original on
      either side, between dots. */
  lemma SnippetShowsPassage(original: string, i: nat, n: nat)
    requires i + n <= |original|
    ensures OccursAt(Snippet(original, i, n), original[i..i + n], 3 + Least(i, 20))
  {
    var lo := if i < 20 then 0 else i - 20;
    var hi := if i + n + 20 < |original| then i + n + 20 else |original|;
    SliceOfSlice(original, lo, hi, i, i + n);
    SliceInside("...", original[lo..hi], "...", i - lo, i - lo + n);
  }

  // ---- all messages --------------------------------------------------------

  /** What passes among the first `n` messages, in collection order. */
  function Collect(ms: seq<Message>, f: Matcher, n: nat): seq<Hit>
    requires n <= |ms|
  {
    if n == 0 then []
    else match f(ms[n - 1], n - 1)
      case None => Collect(ms, f, n - 1)
      case Some(h) => Collect(ms, f, n - 1) + [h]
  }

  function Hits(lower: Lowering, ms: seq<Message>, terms: seq<string>): seq<Hit> {
    Collect(ms, Matching(lower, terms), |ms|)
  }

  function Time(h: Hit): int {
    if h.message.createdAt.Some? then h.message.createdAt.value else 0
  }

  /** Higher score first, then later creation, then collection order. */
  predicate Before(a: Hit, b: Hit) {
    a.score > b.score || (a.score == b.score && (Time(a) > Time(b) || (Time(a) == Time(b) && a.position < b.position)))
  }

  ghost predicate Ordered(hs: seq<Hit>) {
    forall i, j | 0 <= i < j < |hs| :: Before(hs[i], hs[j])
  }

  ghost predicate DistinctPositions(hs: seq<Hit>) {
    forall i, j | 0 <= i < j < |hs| :: hs[i].position != hs[j].position
  }

  function Insert(h: Hit, hs: seq<Hit>): (r: seq<Hit>)
    ensures |r| == |hs| + 1
    ensures forall x :: x in r <==> x == h || x in hs
  {
    if hs == [] then [h]
    else if Before(h, hs[0]) then [h] + hs
    else [hs[0]] + Insert(h, hs[1..])
  }

  /** A stable sort by the two-key comparison. */
  function Sorted(hs: seq<Hit>): (r: seq<Hit>)
    ensures |r| == |hs|
    ensures forall x :: x in r <==> x in hs
  {
    if hs == [] then [] else Insert(hs[|hs| - 1], Sorted(hs[..|hs| - 1]))
  }

  lemma {:induction false} InsertKeepsOrder(h: Hit, hs: seq<Hit>)
    requires Ordered(hs) && forall x | x in hs :: x.position != h.position
    ensures Ordered(Insert(h, hs))
  {
    if hs != [] && !Before(h, hs[0]) {
      InsertKeepsOrder(h, hs[1..]);
      var rest := Insert(h, hs[1..]);
      forall j | 0 <= j < |rest|
        ensures Before(hs[0], rest[j])
      {
        assert rest[j] in rest;
      }
    } else if hs != [] {
      forall j | 0 <= j < |hs|
        ensures Before(h, hs[j])
      {
      }
    }
  }

  lemma {:induction false} SortedIsOrdered(hs: seq<Hit>)
    requires DistinctPositions(hs)
    ensures Ordered(Sorted(hs))
  {
    if hs == [] {
    } else {
      var n := |hs| - 1;
      SortedIsOrdered(hs[..n]);
      InsertKeepsOrder(hs[n], Sorted(hs[..n]));
    }
  }

  /** There is only one ordered arrangement of a set of matches, so any stable sort gives this one. */
  lemma {:induction false} OrderIsUnique(a: seq<Hit>, b: seq<Hit>)
    requires Ordered(a) && Ordered(b) && |a| == |b| && forall x :: x in a <==> x in b
    ensures a == b
  {
    if a == [] {
    } else {
      assert a[0] in b && b != [] && b[0] in a;
      assert a[0] == b[0];
      forall x
        ensures x in a[1..] <==> x in b[1..]
      {
        assert x in a[1..] <==> x in a && x != a[0];
        assert x in b[1..] <==> x in b && x != b[0];
      }
      OrderIsUnique(a[1..], b[1..]);
    }
  }

  function Ranking(lower: Lowering, ms: seq<Message>, terms: seq<string>): seq<Hit> {
    Sorted(Hits(lower, ms, terms))
  }

  ghost predicate Placed(f: Matcher) {
    forall m, p: nat :: f(m, p).Some? ==> f(m, p).value.position == p
  }

  /** These are the passing messages among the first `n`, each once. */
  ghost predicate Collects(ms: seq<Message>, f: Matcher, n: nat, hs: seq<Hit>)
    requires n <= |ms|
  {
    && DistinctPositions(hs)
    && (forall i | 0 <= i < |hs| :: hs[i].position < n && f(ms[hs[i].position], hs[i].position) == Some(hs[i]))
    && (forall p | 0 <= p < n && f(ms[p], p).Some? :: f(ms[p], p).value in hs)
  }

  lemma {:induction false} CollectsOneMore(ms: seq<Message>, f: Matcher, n: nat, hs: seq<Hit>)
    requires n < |ms| && Placed(f) && Collects(ms, f, n, hs)
    ensures match f(ms[n], n)
            case None => Collects(ms, f, n + 1, hs)
            case Some(h) => Collects(ms, f, n + 1, hs + [h])
  {
    match f(ms[n], n)
    case None =>
    case Some(h) =>
      assert h.position == n;
      forall p | 0 <= p <= n && f(ms[p], p).Some?
        ensures f(ms[p], p).value in hs + [h]
      {
        assert p < n ==> f(ms[p], p).value in hs;
      }
  }

  lemma {:induction false} CollectStep(ms: seq<Message>, f: Matcher, n: nat)
    requires n < |ms| && Placed(f) && Collects(ms, f, n, Collect(ms, f, n))
    ensures Collects(ms, f, n + 1, Collect(ms, f, n + 1))
  {
    CollectsOneMore(ms, f, n, Collect(ms, f, n));
  }

  /** Exactly the passing messages are collected, each once. */
  lemma {:induction false} CollectIsExact(ms: seq<Message>, f: Matcher, n: nat)
    requires n <= |ms| && Placed(f)
    ensures Collects(ms, f, n, Collect(ms, f, n))
  {
    if n == 0 {
    } else {
      CollectIsExact(ms, f, n - 1);
      CollectStep(ms, f, n - 1);
    }
  }

  /** A message matches exactly when every term, less one trailing star, is a substring of it. */
  lemma MatchesIffEveryTermOccurs(lower: Lowering, m: Message, terms: seq<string>)
    ensures Matches(lower, m, terms) <==> forall k | 0 <= k < |terms| :: Occurs(LowerText(lower, m), terms[k])
  {
    forall k | 0 <= k < |terms|
      ensures Contains(LowerText(lower, m), terms[k]) <==> Occurs(LowerText(lower, m), terms[k])
    {
      ContainsIffOccurs(LowerText(lower, m), terms[k]);
    }
  }

  /** The ranking holds exactly the messages that match, each once, with its score and snippets,
      ordered by score, then time, then place in the collection. */
  lemma RankingIsExact(lower: Lowering, ms: seq<Message>, terms: seq<string>)
    ensures var r := Ranking(lower, ms, terms);
            && Ordered(r)
            && (forall h | h in r :: h.position < |ms| && h == HitFor(lower, ms[h.position], h.position, terms))
            && (forall p | 0 <= p < |ms| ::
                  HitFor(lower, ms[p], p, terms) in r <==> Matches(lower, ms[p], terms))
  {
    CollectIsExact(ms, Matching(lower, terms), |ms|);
    SortedIsOrdered(Hits(lower, ms, terms));
  }

  /** Before any other: the higher score; at equal scores the later creation, a missing one counting as
      zero; at equal times the earlier place in the collection. */
  lemma {:induction false} RankingIsByScoreTimePlace(
      lower: Lowering, ms: seq<Message>, terms: seq<string>, i: nat, j: nat)
    requires i < j < |Ranking(lower, ms, terms)|
    ensures var (a, b) := (Ranking(lower, ms, terms)[i], Ranking(lower, ms, terms)[j]);
            var s := if a.message.createdAt.Some? then a.message.createdAt.value else 0;
            var t := if b.message.createdAt.Some? then b.message.createdAt.value else 0;
            && a.score >= b.score
            && (a.score == b.score ==> s >= t)
            && (a.score == b.score && s == t ==> a.position < b.position)
  {
    RankingIsExact(lower, ms, terms);
    assert Before(Ranking(lower, ms, terms)[i], Ranking(lower, ms, terms)[j]);
  }

  /** The text has the term, less one trailing star, at place `i` in lower case, and nowhere earlier. */
  ghost predicate FirstAt(lower: Lowering, text: string, term: string, i: nat) {
    HasAt(lower, text, term, i) && forall j: nat | j < i :: !HasAt(lower, text, term, j)
  }

  ghost predicate HasAt(lower: Lowering, text: string, term: string, i: nat) {
    && i + |Clean(term)| <= |text|
    && forall k | 0 <= k < |Clean(term)| :: lower(text[i + k]) == Clean(term)[k]
  }

  ghost predicate HasTerm(lower: Lowering, text: string, term: string) {
    exists i: nat :: HasAt(lower, text, term, i)
  }

  lemma {:induction false} HasAtIsOccursAt(lower: Lowering, text: string, term: string, i: nat)
    ensures HasAt(lower, text, term, i) <==> OccursAt(Lower(lower, text), Clean(term), i)
  {
    var (l, clean) := (Lower(lower, text), Clean(term));
    if i + |clean| <= |text| {
      var passage := l[i..i + |clean|];
      forall k | 0 <= k < |clean|
        ensures passage[k] == lower(text[i + k])
      {
      }
    }
  }

  lemma {:induction false} IndexIsFirst(lower: Lowering, text: string, term: string)
    ensures match IndexOf(Lower(lower, text), Clean(term))
            case Some(i) => FirstAt(lower, text, term, i)
            case None => forall i: nat :: !HasAt(lower, text, term, i)
  {
    forall i: nat
      ensures HasAt(lower, text, term, i) <==> OccursAt(Lower(lower, text), Clean(term), i)
    {
      HasAtIsOccursAt(lower, text, term, i);
    }
  }

  lemma {:induction false} ContainsIffThere(lower: Lowering, text: string, term: string)
    ensures Contains(Lower(lower, text), term) <==> HasTerm(lower, text, term)
  {
    IndexIsFirst(lower, text, term);
  }

  lemma {:induction false} MatchesIffThere(lower: Lowering, text: string, terms: seq<string>)
    ensures MatchesAll(Lower(lower, text), terms) <==>
            forall k | 0 <= k < |terms| :: HasTerm(lower, text, terms[k])
  {
    forall k | 0 <= k < |terms|
      ensures Contains(Lower(lower, text), terms[k]) <==> HasTerm(lower, text, terms[k])
    {
      ContainsIffThere(lower, text, terms[k]);
    }
  }

  /** A message is found, without naming how it is done, exactly when its text has every term. */
  lemma {:induction false} FoundIffEveryTermIsThere(lower: Lowering, ms: seq<Message>, terms: seq<string>, p: nat)
    requires p < |ms|
    ensures (exists h :: h in Ranking(lower, ms, terms) && h.position == p) <==>
            forall k | 0 <= k < |terms| :: HasTerm(lower, TextOf(ms[p]), terms[k])
  {
    RankingIsExact(lower, ms, terms);
    MatchesIffThere(lower, TextOf(ms[p]), terms);
    var hit := HitFor(lower, ms[p], p, terms);
    assert Matches(lower, ms[p], terms) <==> hit in Ranking(lower, ms, terms);
    assert hit.position == p;
  }

  /** How many terms first occur at the start of the text, after white space or after punctuation. */
  ghost function WordStarts(lower: Lowering, text: string, terms: seq<string>): nat {
    if terms == [] then 0
    else
      var term := terms[|terms| - 1];
      WordStarts(lower, text, terms[..|terms| - 1]) + if FirstStartsWord(lower, text, term) then 1 else 0
  }

  ghost predicate StartsWord(lower: Lowering, text: string, i: nat) {
    i == 0 || (i <= |text| && (IsSpace(lower(text[i - 1])) || lower(text[i - 1]) in {'.', ',', '!', '?', ';', ':'}))
  }

  lemma {:induction false} FirstIsUnique(lower: Lowering, text: string, term: string, i: nat, j: nat)
    requires FirstAt(lower, text, term, i) && FirstAt(lower, text, term, j)
    ensures i == j
  {
    assert HasAt(lower, text, term, i) && HasAt(lower, text, term, j);
  }

  ghost predicate FirstStartsWord(lower: Lowering, text: string, term: string) {
    exists i: nat :: FirstAt(lower, text, term, i) && StartsWord(lower, text, i)
  }

  lemma {:induction false} BoundaryIsWordStart(lower: Lowering, text: string, i: nat)
    requires i <= |text|
    ensures IsBoundary(Lower(lower, text), i) <==> StartsWord(lower, text, i)
  {
  }

  lemma {:induction false} TermStartsWord(lower: Lowering, text: string, term: string)
    ensures var i := IndexOf(Lower(lower, text), Clean(term));
            (i.Some? && IsBoundary(Lower(lower, text), i.value)) <==> FirstStartsWord(lower, text, term)
  {
    IndexIsFirst(lower, text, term);
    var found := IndexOf(Lower(lower, text), Clean(term));
    if found.Some? {
      BoundaryIsWordStart(lower, text, found.value);
      if FirstStartsWord(lower, text, term) {
        var i: nat :| FirstAt(lower, text, term, i) && StartsWord(lower, text, i);
        FirstIsUnique(lower, text, term, i, found.value);
      }
    }
  }

  lemma {:induction false} BoundariesAreWordStarts(lower: Lowering, text: string, terms: seq<string>)
    ensures BoundaryCount(Lower(lower, text), terms) == WordStarts(lower, text, terms)
  {
    if terms == [] {
    } else {
      BoundariesAreWordStarts(lower, text, terms[..|terms| - 1]);
      TermStartsWord(lower, text, terms[|terms| - 1]);
    }
  }

  /** The snippet of a term: dots, the passage at its first occurrence with up to 20 characters of the
      original text on either side, dots. */
  ghost predicate ShowsTerm(lower: Lowering, text: string, term: string, snippet: string) {
    exists i: nat ::
      && FirstAt(lower, text, term, i)
      && var hi := i + |Clean(term)|;
      && snippet == "..." + text[i - Least(i, 20)..hi + Least(|text| - hi, 20)] + "..."
  }

  lemma {:induction false} SnippetIs(text: string, i: nat, n: nat)
    requires i + n <= |text|
    ensures Snippet(text, i, n) == "..." + text[i - Least(i, 20)..i + n + Least(|text| - (i + n), 20)] + "..."
  {
  }

  lemma {:induction false} SnippetShowsTerm(lower: Lowering, text: string, term: string)
    requires Contains(Lower(lower, text), term)
    ensures ShowsTerm(lower, text, term, TermSnippet(text, Lower(lower, text), term))
  {
    IndexIsFirst(lower, text, term);
    SnippetIs(text, IndexOf(Lower(lower, text), Clean(term)).value, |Clean(term)|);
  }

  lemma {:induction false} SnippetsAt(original: string, text: string, terms: seq<string>)
    requires |text| == |original|
    ensures var r := Snippets(original, text, terms);
            |r| == |terms| && forall k | 0 <= k < |terms| :: r[k] == TermSnippet(original, text, terms[k])
  {
    if terms == [] {
    } else {
      SnippetsAt(original, text, terms[..|terms| - 1]);
    }
  }

  lemma {:induction false} SnippetsShowTerms(lower: Lowering, text: string, terms: seq<string>)
    requires MatchesAll(Lower(lower, text), terms)
    ensures var r := Snippets(text, Lower(lower, text), terms);
            |r| == |terms| && forall k | 0 <= k < |terms| :: ShowsTerm(lower, text, terms[k], r[k])
  {
    SnippetsAt(text, Lower(lower, text), terms);
    forall k | 0 <= k < |terms|
      ensures ShowsTerm(lower, text, terms[k], TermSnippet(text, Lower(lower, text), terms[k]))
    {
      SnippetShowsTerm(lower, text, terms[k]);
    }
  }

  /** What a hit of the ranking holds: the message at its place, a score of five for every term and five
      more for each that first occurs at the start of a word, and a snippet for every term in order. */
  lemma {:induction false} HitsTellTheTruth(lower: Lowering, ms: seq<Message>, terms: seq<string>, h: Hit)
    requires h in Ranking(lower, ms, terms)
    ensures h.position < |ms| && h.message == ms[h.position]
    ensures var text := if h.message.text.Some? then h.message.text.value else "";
            && h.score == 5 * |terms| + 5 * WordStarts(lower, text, terms)
            && |h.snippets| == |terms|
            && forall k | 0 <= k < |terms| :: ShowsTerm(lower, text, terms[k], h.snippets[k])
  {
    RankingIsExact(lower, ms, terms);
    var text := TextOf(h.message);
    ScoreCountsBoundaries(Lower(lower, text), terms);
    BoundariesAreWordStarts(lower, text, terms);
    SnippetsShowTerms(lower, text, terms);
  }

  // ---- the order of terms, and more terms ----------------------------------

  function Without(terms: seq<string>, k: nat): seq<string>
    requires k < |terms|
  {
    terms[..k] + terms[k + 1..]
  }

  lemma WithoutOneMore(terms: seq<string>, k: nat)
    requires k < |terms| - 1
    ensures Without(terms, k) == Without(terms[..|terms| - 1], k) + [terms[|terms| - 1]]
  {
  }

  lemma {:induction false} ScoreWithout(text: string, terms: seq<string>, k: nat)
    requires k < |terms|
    ensures Score(text, terms) == Score(text, Without(terms, k)) + TermScore(text, terms[k])
  {
    var n := |terms| - 1;
    if k < n {
      ScoreWithout(text, terms[..n], k);
      WithoutOneMore(terms, k);
      ScoreOneMore(text, Without(terms[..n], k), terms[n]);
    } else {
      assert Without(terms, k) == terms[..n];
    }
  }

  lemma {:induction false} ScoreIgnoresOrder(text: string, a: seq<string>, b: seq<string>)
    requires multiset(a) == multiset(b)
    ensures Score(text, a) == Score(text, b)
    decreases |a|
  {
    assert |a| == |multiset(a)| == |multiset(b)| == |b|;
    if a == [] {
    } else {
      var n := |a| - 1;
      var x := a[n];
      assert x in multiset(b);
      var k :| 0 <= k < |b| && b[k] == x;
      assert a == a[..n] + [x];
      assert b == b[..k] + [x] + b[k + 1..];
      assert multiset(a[..n]) == multiset(a) - multiset{x};
      assert multiset(Without(b, k)) == multiset(b) - multiset{x};
      ScoreIgnoresOrder(text, a[..n], Without(b, k));
      ScoreWithout(text, b, k);
    }
  }

  /** A hit without its snippets, whose order follows the terms. */
  function Bare(h: Hit): Hit {
    h.(snippets := [])
  }

  function Bares(hs: seq<Hit>): (r: seq<Hit>)
    ensures |r| == |hs|
    ensures forall i | 0 <= i < |hs| :: r[i] == Bare(hs[i])
  {
    seq(|hs|, i requires 0 <= i < |hs| => Bare(hs[i]))
  }

  lemma BaresCons(h: Hit, hs: seq<Hit>)
    ensures Bares([h] + hs) == [Bare(h)] + Bares(hs)
  {
  }

  lemma {:induction false} BareInsert(h: Hit, hs: seq<Hit>)
    ensures Bares(Insert(h, hs)) == Insert(Bare(h), Bares(hs))
  {
    if hs == [] {
      assert Bares([h]) == [Bare(h)];
    } else if Before(h, hs[0]) {
      BaresCons(h, hs);
    } else {
      BareInsert(h, hs[1..]);
      BaresCons(hs[0], Insert(h, hs[1..]));
      assert Bares(hs)[1..] == Bares(hs[1..]);
    }
  }

  lemma {:induction false} BareSorted(hs: seq<Hit>)
    ensures Bares(Sorted(hs)) == Sorted(Bares(hs))
  {
    if hs == [] {
    } else {
      var n := |hs| - 1;
      BareSorted(hs[..n]);
      BareInsert(hs[n], Sorted(hs[..n]));
      assert Bares(hs)[..n] == Bares(hs[..n]);
    }
  }

  lemma SameTermsSameMatches(lower: Lowering, m: Message, a: seq<string>, b: seq<string>)
    requires forall t :: t in a ==> t in b
    ensures Matches(lower, m, b) ==> Matches(lower, m, a)
  {
    if Matches(lower, m, b) {
      forall k | 0 <= k < |a|
        ensures Contains(LowerText(lower, m), a[k])
      {
        assert a[k] in b;
        var j :| 0 <= j < |b| && b[j] == a[k];
      }
    }
  }

  /** The two tests pass the same messages with the same scores. */
  ghost predicate SameBare(f: Matcher, g: Matcher) {
    forall m, p: nat ::
      (f(m, p).Some? <==> g(m, p).Some?) && (f(m, p).Some? ==> Bare(f(m, p).value) == Bare(g(m, p).value))
  }

  lemma {:induction false} CollectBare(ms: seq<Message>, f: Matcher, g: Matcher, n: nat)
    requires n <= |ms| && SameBare(f, g)
    ensures Bares(Collect(ms, f, n)) == Bares(Collect(ms, g, n))
  {
    if n == 0 {
    } else {
      CollectBare(ms, f, g, n - 1);
    }
  }

  lemma MatchingIgnoresOrder(lower: Lowering, a: seq<string>, b: seq<string>)
    requires multiset(a) == multiset(b)
    ensures SameBare(Matching(lower, a), Matching(lower, b))
  {
    assert forall t :: (t in a <==> t in multiset(a)) && (t in b <==> t in multiset(b));
    forall m
      ensures Matches(lower, m, a) <==> Matches(lower, m, b)
      ensures Score(LowerText(lower, m), a) == Score(LowerText(lower, m), b)
    {
      SameTermsSameMatches(lower, m, a, b);
      SameTermsSameMatches(lower, m, b, a);
      ScoreIgnoresOrder(LowerText(lower, m), a, b);
    }
  }

  /** Permuting the terms changes neither the messages found, nor their scores, nor their order. */
  lemma RankingIgnoresTermOrder(lower: Lowering, ms: seq<Message>, a: seq<string>, b: seq<string>)
    requires multiset(a) == multiset(b)
    ensures Bares(Ranking(lower, ms, a)) == Bares(Ranking(lower, ms, b))
  {
    MatchingIgnoresOrder(lower, a, b);
    CollectBare(ms, Matching(lower, a), Matching(lower, b), |ms|);
    BareSorted(Hits(lower, ms, a));
    BareSorted(Hits(lower, ms, b));
  }

  /** Further terms never bring in a message. */
  lemma MoreTermsNarrow(lower: Lowering, ms: seq<Message>, terms: seq<string>, more: seq<string>, h: Hit)
    requires h in Ranking(lower, ms, terms + more)
    ensures h.position < |ms| && HitFor(lower, ms[h.position], h.position, terms) in Ranking(lower, ms, terms)
  {
    RankingIsExact(lower, ms, terms + more);
    RankingIsExact(lower, ms, terms);
    SameTermsSameMatches(lower, ms[h.position], terms, terms + more);
  }

  // ---- paging and the whole search -----------------------------------------

  /** Array slicing with negative indices counted from the end. */
  function Slice<T>(s: seq<T>, start: int, end: int): seq<T> {
    var lo := Clamp(start, |s|);
    var hi := Clamp(end, |s|);
    if lo < hi then s[lo..hi] else []
  }

  function Clamp(i: int, n: nat): (r: nat)
    ensures r <= n
  {
    if i < 0 then (if n + i < 0 then 0 else n + i) else if i < n then i else n
  }

  function Or(x: Option<int>, default: int): int {
    if x.Some? && x.value != 0 then x.value else default
  }

  function Paged(r: seq<Hit>, o: Options): seq<Hit> {
    Slice(r, Or(o.offset, 0), Or(o.offset, 0) + Or(o.limit, 50))
  }

  /** Without a channel, or with an empty one, every message is shown. */
  predicate Shown(m: Message, channelId: Option<string>) {
    channelId.None? || channelId.value == "" || m.channelId == channelId.value
  }

  function InChannel(ms: seq<Message>, channelId: Option<string>): (r: seq<Message>)
    ensures forall m :: m in r <==>
              m in ms && (channelId.Some? && channelId.value != "" ==> m.channelId == channelId.value)
  {
    if ms == [] then []
    else
      var rest := InChannel(ms[..|ms| - 1], channelId);
      if Shown(ms[|ms| - 1], channelId) then rest + [ms[|ms| - 1]] else rest
  }

  /** The places of the messages a channel shows. */
  function Places(ms: seq<Message>, channelId: Option<string>): (ps: seq<nat>)
    ensures forall i | 0 <= i < |ps| :: ps[i] < |ms|
    ensures forall i, j | 0 <= i < j < |ps| :: ps[i] < ps[j]
    ensures forall p: nat :: p in ps <==> p < |ms| && Shown(ms[p], channelId)
  {
    if ms == [] then []
    else
      var rest := Places(ms[..|ms| - 1], channelId);
      if Shown(ms[|ms| - 1], channelId) then rest + [|ms| - 1] else rest
  }

  /** The messages `r` are those of the collection at these places. */
  ghost predicate ReadAt(r: seq<Message>, ms: seq<Message>, ps: seq<nat>) {
    |r| == |ps| && forall i | 0 <= i < |r| :: ps[i] < |ms| && r[i] == ms[ps[i]]
  }

  lemma {:induction false} ReadMore(r: seq<Message>, ms: seq<Message>, ps: seq<nat>, m: Message)
    requires ReadAt(r, ms, ps)
    ensures ReadAt(r, ms + [m], ps) && ReadAt(r + [m], ms + [m], ps + [|ms|])
  {
  }

  /** The filter keeps the shown messages where they are: the result reads the collection at its
      shown places, each once and in increasing order. */
  lemma {:induction false} InChannelIsSubsequence(ms: seq<Message>, channelId: Option<string>)
    ensures ReadAt(InChannel(ms, channelId), ms, Places(ms, channelId))
  {
    if ms == [] {
    } else {
      var (prefix, last) := (ms[..|ms| - 1], ms[|ms| - 1]);
      InChannelIsSubsequence(prefix, channelId);
      ReadMore(InChannel(prefix, channelId), prefix, Places(prefix, channelId), last);
      assert ms == prefix + [last];
    }
  }

  /** The outer loop. */
  method AllHits(lower: Lowering, ms: seq<Message>, terms: seq<string>) returns (results: seq<Hit>)
    ensures results == Hits(lower, ms, terms)
  {
    ghost var f := Matching(lower, terms);
    results := [];
    for i := 0 to |ms|
      invariant results == Collect(ms, f, i)
    {
      var hit := MatchMessage(lower, ms[i], i, terms);
      assert f(ms[i], i) == hit;
      if hit.Some? {
        results := results + [hit.value];
      }
    }
  }

  /** The search: no terms find nothing; otherwise one page of the ranking of the channel's messages. */
  method RunSearch(lower: Lowering, all: seq<Message>, query: string, o: Options) returns (results: seq<Hit>)
    ensures var terms := QueryTerms(lower, query);
            results == if terms == [] then [] else Paged(Ranking(lower, InChannel(all, o.channelId), terms), o)
  {
    var terms := QueryTerms(lower, query);
    if |terms| == 0 {
      return [];
    }
    var ms := InChannel(all, o.channelId);
    results := AllHits(lower, ms, terms);
    results := Sorted(results);
    results := Paged(results, o);
  }

  /** A page from the start or further on: the items from the offset, at most the limit. Without a limit,
      or with zero, a page has fifty; without an offset it starts at the top. */
  lemma {:induction false} PageHolds(r: seq<Hit>, o: Options)
    requires o.offset.Some? ==> o.offset.value >= 0
    requires o.limit.Some? ==> o.limit.value >= 0
    ensures var start := if o.offset.Some? then o.offset.value else 0;
            var size := if o.limit.None? || o.limit.value == 0 then 50 else o.limit.value;
            && |Paged(r, o)| == (if start >= |r| then 0 else Least(size, |r| - start))
            && forall k | 0 <= k < |Paged(r, o)| :: start + k < |r| && Paged(r, o)[k] == r[start + k]
  {
  }

  /** A negative offset counts from the end, as long as the page ends before it. */
  lemma {:induction false} NegativeOffsetCountsFromEnd(r: seq<Hit>, channelId: Option<string>, back: int, size: int)
    requires 0 < size < back <= |r|
    ensures Paged(r, Options(channelId, Some(size), Some(-back))) == r[|r| - back..|r| - back + size]
  {
  }

  /** A page that would end exactly at the end is empty, since its end is then place zero. */
  lemma {:induction false} NegativeOffsetMissesLastPage(r: seq<Hit>, channelId: Option<string>, size: int)
    requires size > 0
    ensures Paged(r, Options(channelId, Some(size), Some(-size))) == []
  {
  }

  /** The first `n` pages of size `size`, one after another. */
  function Pages(r: seq<Hit>, channelId: Option<string>, size: int, n: nat): seq<Hit> {
    if n == 0 then []
    else Pages(r, channelId, size, n - 1) + Paged(r, Options(channelId, Some(size), Some((n - 1) * size)))
  }

  /** The part of the ranking before place `i`. */
  function Top(r: seq<Hit>, i: nat): seq<Hit> {
    if i < |r| then r[..i] else r
  }

  lemma PageExtendsTop(r: seq<Hit>, channelId: Option<string>, size: int, start: nat)
    requires size > 0
    ensures Top(r, start) + Paged(r, Options(channelId, Some(size), Some(start))) == Top(r, start + size)
  {
  }

  lemma {:induction false} PlacesBefore(n: nat, size: nat)
    ensures n * size >= 0
    ensures (n + 1) * size == n * size + size
  {
  }

  lemma {:induction false} PagesAreTop(r: seq<Hit>, channelId: Option<string>, size: nat, n: nat)
    requires size > 0
    ensures n * size >= 0 && Pages(r, channelId, size, n) == Top(r, n * size)
  {
    if n == 0 {
    } else {
      PlacesBefore(n - 1, size);
      PagesAreTop(r, channelId, size, n - 1);
      var start := (n - 1) * size;
      PageExtendsTop(r, channelId, size, start);
      assert n * size == start + size;
    }
  }

  /** Consecutive pages concatenate to the ranking, with no gap and no repeat. */
  lemma {:induction false} PagesConcatenate(r: seq<Hit>, channelId: Option<string>, size: nat, n: nat)
    requires size > 0
    ensures n * size >= 0 && Pages(r, channelId, size, n) == Top(r, n * size)
    ensures n * size >= |r| ==> Pages(r, channelId, size, n) == r
  {
    PagesAreTop(r, channelId, size, n);
  }
}
