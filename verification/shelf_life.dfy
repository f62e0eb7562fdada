/**
 * The shelf-life extractor: the per-item work of the expiration statistics
 * (src/cli.ts:104-131).
 *
 * Both regular expressions of the pattern table have the shape
 *
 *     marker (class+) separator (class+) (\.|$)
 *
 * with no flags, so `RegExp.prototype.exec` (ECMA-262, section 22.2) returns
 * the match at the leftmost position where one exists. Each run of a
 * character class is followed by a character outside that class (the first
 * character of the separator, or `.` or the end of the input), so a shorter
 * run can never let the rest of the expression succeed: the regular
 * expression's backtracking can only succeed with the maximal run. The matcher
 * below therefore takes maximal runs, and ExecCorrect proves it returns exactly
 * the leftmost match in the declarative sense of MatchesAt.
 */
module ShelfLife {
  import opened Json

  /** The two character classes of the pattern table. */
  datatype CharClass =
    | CyrillicLetter  // [а-яА-Я]: U+0410 to U+044F, which leaves out Ё and ё
    | Digit           // \d: ASCII 0 to 9

  predicate InClass(k: CharClass, c: char)
  {
    match k
    case CyrillicLetter => 'А' <= c <= 'я'
    case Digit => '0' <= c <= '9'
  }

  predicate AllIn(k: CharClass, w: string)
  {
    forall i | 0 <= i < |w| :: InClass(k, w[i])
  }

  /** The expression  marker (first+) sep (second+) (\.|$). */
  datatype Template = Template(marker: string, first: CharClass, sep: string, second: CharClass)

  /**
   * The separator cannot continue the first run and the terminating `.`
   * cannot continue the second, so each run is forced to be maximal.
   */
  predicate Deterministic(t: Template)
  {
    |t.sep| > 0 && !InClass(t.first, t.sep[0]) && !InClass(t.second, '.')
  }

  /** The two capture groups, `match[1]` and `match[2]`. */
  datatype Groups = Groups(first: string, second: string)

  /** A successful `exec`: `match.index` and the groups. */
  datatype Match = Match(index: nat, groups: Groups)

  /**
   * The regular expression matches the input at position p with these
   * captures: the text from p spells marker, group 1, separator, group 2,
   * each group a non-empty run of its class, and the end of input or a `.`
   * follows.
   */
  ghost predicate MatchesAt(t: Template, s: string, p: nat, g: Groups)
  {
    var q := p + |t.marker|;
    var r := q + |g.first|;
    var b := r + |t.sep|;
    var e := b + |g.second|;
    && e <= |s|
    && s[p..q] == t.marker
    && s[q..r] == g.first && g.first != [] && AllIn(t.first, g.first)
    && s[r..b] == t.sep
    && s[b..e] == g.second && g.second != [] && AllIn(t.second, g.second)
    && (e == |s| || s[e] == '.')
  }

  /** The match `exec` reports: one at the leftmost position that has any. */
  ghost predicate IsLeftmost(t: Template, s: string, m: Match)
  {
    && MatchesAt(t, s, m.index, m.groups)
    && forall q: nat, g: Groups | q < m.index :: !MatchesAt(t, s, q, g)
  }

  /** Length of the maximal run of class k starting at position i. */
  function Run(k: CharClass, s: string, i: nat): (n: nat)
    requires i <= |s|
    ensures i + n <= |s|
    decreases |s| - i
  {
    if i < |s| && InClass(k, s[i]) then 1 + Run(k, s, i + 1) else 0
  }

  /** `+` is greedy: the run is all of class k, and what follows it is not. */
  lemma {:induction false} RunMaximal(k: CharClass, s: string, i: nat)
    requires i <= |s|
    ensures forall j | i <= j < i + Run(k, s, i) :: InClass(k, s[j])
    ensures i + Run(k, s, i) == |s| || !InClass(k, s[i + Run(k, s, i)])
    decreases |s| - i
  {
    if i < |s| && InClass(k, s[i]) {
      RunMaximal(k, s, i + 1);
    }
  }

  /** Attempt the expression at position p, taking maximal runs; each captured group is non-empty. */
  function MatchAt(t: Template, s: string, p: nat): (r: Option<Groups>)
    ensures r.Some? ==> r.value.first != [] && r.value.second != []
  {
    var q := p + |t.marker|;
    if q > |s| || s[p..q] != t.marker then None
    else
      var n := Run(t.first, s, q);
      var r := q + n;
      if n == 0 || r + |t.sep| > |s| || s[r..r + |t.sep|] != t.sep then None
      else
        var b := r + |t.sep|;
        var e := b + Run(t.second, s, b);
        if e == b || !(e == |s| || s[e] == '.') then None
        else Some(Groups(s[q..r], s[b..e]))
  }

  /** Try positions p, p + 1, ..., |s| in turn. */
  function Search(t: Template, s: string, p: nat): (r: Option<Match>)
    requires p <= |s|
    ensures r.Some? ==> p <= r.value.index <= |s|
    ensures r.Some? ==> r.value.groups.first != [] && r.value.groups.second != []
    decreases |s| - p
  {
    match MatchAt(t, s, p)
    case Some(g) => Some(Match(p, g))
    case None => if p == |s| then None else Search(t, s, p + 1)
  }

  /** `regex.exec(s)`. */
  function Exec(t: Template, s: string): (r: Option<Match>)
    ensures r.Some? ==> r.value.index <= |s|
    ensures r.Some? ==> r.value.groups.first != [] && r.value.groups.second != []
  {
    Search(t, s, 0)
  }

  /** A run that ends where its class ends is the maximal run. */
  lemma {:induction false} RunExact(k: CharClass, s: string, i: nat, n: nat)
    requires i + n <= |s|
    requires forall j | i <= j < i + n :: InClass(k, s[j])
    requires i + n == |s| || !InClass(k, s[i + n])
    ensures Run(k, s, i) == n
    decreases n
  {
    if n > 0 {
      RunExact(k, s, i + 1, n - 1);
    }
  }

  /** Every match the matcher reports is a match of the expression. */
  lemma MatchAtSound(t: Template, s: string, p: nat)
    requires MatchAt(t, s, p).Some?
    ensures MatchesAt(t, s, p, MatchAt(t, s, p).value)
  {
    var q := p + |t.marker|;
    var r := q + Run(t.first, s, q);
    var b := r + |t.sep|;
    var e := b + Run(t.second, s, b);
    var g := MatchAt(t, s, p).value;
    assert g == Groups(s[q..r], s[b..e]);
    assert s[p..q] == t.marker && s[r..b] == t.sep;
    assert e == |s| || s[e] == '.';
    RunAllIn(t.first, s, q);
    RunAllIn(t.second, s, b);
  }

  /** The run, as a piece of text, is a word of its class. */
  lemma RunAllIn(k: CharClass, s: string, i: nat)
    requires i <= |s|
    ensures AllIn(k, s[i..i + Run(k, s, i)])
  {
    var w := s[i..i + Run(k, s, i)];
    RunMaximal(k, s, i);
    forall x | 0 <= x < |w|
      ensures InClass(k, w[x])
    {
      assert w[x] == s[i + x];
    }
  }

  /** Every match of the expression is the one the matcher reports. */
  lemma MatchAtComplete(t: Template, s: string, p: nat, g: Groups)
    requires Deterministic(t)
    requires MatchesAt(t, s, p, g)
    ensures MatchAt(t, s, p) == Some(g)
  {
    var q := p + |t.marker|;
    var r := q + |g.first|;
    var b := r + |t.sep|;
    var e := b + |g.second|;
    assert s[r] == s[r..b][0];
    RunOfSlice(t.first, s, q, r, g.first);
    RunOfSlice(t.second, s, b, e, g.second);
    MatchAtFrom(t, s, p, r, e);
  }

  lemma MatchAtFrom(t: Template, s: string, p: nat, r: nat, e: nat)
    requires p + |t.marker| <= r && r + |t.sep| <= e <= |s|
    requires s[p..p + |t.marker|] == t.marker
    requires Run(t.first, s, p + |t.marker|) == r - (p + |t.marker|) > 0
    requires s[r..r + |t.sep|] == t.sep
    requires Run(t.second, s, r + |t.sep|) == e - (r + |t.sep|) > 0
    requires e == |s| || s[e] == '.'
    ensures MatchAt(t, s, p) == Some(Groups(s[p + |t.marker|..r], s[r + |t.sep|..e]))
  {
  }

  /** A slice that is a run of class k and ends where the class ends is the maximal run. */
  lemma RunOfSlice(k: CharClass, s: string, i: nat, j: nat, w: string)
    requires i <= j <= |s| && s[i..j] == w && AllIn(k, w)
    requires j == |s| || !InClass(k, s[j])
    ensures Run(k, s, i) == j - i
  {
    forall x | i <= x < j
      ensures InClass(k, s[x])
    {
      assert s[x] == w[x - i];
    }
    RunExact(k, s, i, j - i);
  }

  lemma MatchAtCorrect(t: Template, s: string, p: nat, g: Groups)
    requires Deterministic(t)
    ensures MatchAt(t, s, p) == Some(g) <==> MatchesAt(t, s, p, g)
  {
    if MatchAt(t, s, p) == Some(g) {
      MatchAtSound(t, s, p);
    }
    if MatchesAt(t, s, p, g) {
      MatchAtComplete(t, s, p, g);
    }
  }

  /** The search reports the first position from p on where the matcher succeeds. */
  lemma SearchFirst(t: Template, s: string, p: nat)
    requires p <= |s|
    ensures Search(t, s, p).Some? ==>
      var m := Search(t, s, p).value;
      && p <= m.index <= |s| && MatchAt(t, s, m.index) == Some(m.groups)
      && forall q | p <= q < m.index :: MatchAt(t, s, q).None?
    ensures Search(t, s, p).None? ==> forall q | p <= q <= |s| :: MatchAt(t, s, q).None?
  {
    SearchFound(t, s, p);
    forall q | p <= q <= |s| && (Search(t, s, p).None? || q < Search(t, s, p).value.index)
      ensures MatchAt(t, s, q).None?
    {
      SearchSkips(t, s, p, q);
    }
  }

  /** What the search returns is a success of the matcher at or after p. */
  lemma {:induction false} SearchFound(t: Template, s: string, p: nat)
    requires p <= |s|
    ensures Search(t, s, p).Some? ==>
      && p <= Search(t, s, p).value.index <= |s|
      && MatchAt(t, s, Search(t, s, p).value.index) == Some(Search(t, s, p).value.groups)
    decreases |s| - p
  {
    if MatchAt(t, s, p).None? && p < |s| {
      assert Search(t, s, p) == Search(t, s, p + 1);
      SearchFound(t, s, p + 1);
    }
  }

  /** The search passes over position q only when the matcher fails there. */
  lemma {:induction false} SearchSkips(t: Template, s: string, p: nat, q: nat)
    requires p <= q <= |s|
    requires Search(t, s, p).None? || q < Search(t, s, p).value.index
    ensures MatchAt(t, s, q).None?
    decreases q - p
  {
    if q > p {
      assert Search(t, s, p) == Search(t, s, p + 1);
      SearchSkips(t, s, p + 1, q);
    }
  }

  /** A match of the expression lies inside the input. */
  lemma MatchesAtInside(t: Template, s: string, p: nat, g: Groups)
    requires MatchesAt(t, s, p, g)
    ensures p <= |s|
  {
  }

  /** `exec` returns a match exactly when it is the leftmost match of the expression. */
  lemma ExecCorrect(t: Template, s: string, m: Match)
    requires Deterministic(t)
    ensures Exec(t, s) == Some(m) <==> IsLeftmost(t, s, m)
  {
    SearchFirst(t, s, 0);
    if Exec(t, s) == Some(m) {
      MatchAtSound(t, s, m.index);
      forall q: nat, g: Groups | q < m.index
        ensures !MatchesAt(t, s, q, g)
      {
        MatchAtCorrect(t, s, q, g);
      }
    }
    if IsLeftmost(t, s, m) {
      MatchAtComplete(t, s, m.index, m.groups);
      MatchesAtInside(t, s, m.index, m.groups);
      assert Exec(t, s).Some?;
      var m' := Exec(t, s).value;
      MatchAtSound(t, s, m'.index);
      assert !(m'.index < m.index);
    }
  }

  /** `exec` returns null exactly when the expression matches nowhere. */
  lemma ExecNone(t: Template, s: string)
    requires Deterministic(t)
    ensures Exec(t, s).None? <==> forall p: nat, g: Groups :: !MatchesAt(t, s, p, g)
  {
    SearchFirst(t, s, 0);
    if Exec(t, s).None? {
      forall p: nat, g: Groups
        ensures !MatchesAt(t, s, p, g)
      {
        if MatchesAt(t, s, p, g) {
          MatchesAtInside(t, s, p, g);
          MatchAtComplete(t, s, p, g);
        }
      }
    } else {
      MatchAtSound(t, s, Exec(t, s).value.index);
    }
  }

  // ---------------------------------------------------------------------
  // The pattern table and the per-item outcome

  /** A count and a unit, such as ("10", "дней"). */
  datatype Duration = Duration(count: string, unit: string)

  /** What one item description yields. */
  datatype Extraction =
    | Found(duration: Duration)  // a template matched
    | Unknown                    // no template matched, but the marker phrase is there
    | NoMatch                    // no marker phrase: the item contributes nothing

  /**
   * One entry of the pattern table: the expression and which capture group
   * holds the unit (the `map` of the entry).
   */
  datatype Pattern = Pattern(regex: Template, unitFirst: bool)
  {
    /** The entry's `map`: each capture group is used once, as count or as unit. */
    function Map(g: Groups): (r: Duration)
      ensures (r.count, r.unit) == (g.first, g.second) || (r.count, r.unit) == (g.second, g.first)
    {
      if unitFirst then Duration(g.second, g.first) else Duration(g.first, g.second)
    }
  }

  /** `/Срок хранения, ([а-яА-Я]+): ([\d]+)(\.|$)/`, unit in group 1, count in group 2. */
  const PatternA := Pattern(Template("Срок хранения, ", CyrillicLetter, ": ", Digit), true)

  /** `/Срок хранения: ([\d]+) ([а-яА-Я]+)(\.|$)/`, count in group 1, unit in group 2. */
  const PatternB := Pattern(Template("Срок хранения: ", Digit, " ", CyrillicLetter), false)

  /** The table, tried in order. */
  const Patterns := [PatternA, PatternB]

  /** The phrase searched for in the lower-cased description. */
  const Marker := "срок хранения"

  /**
   * The first entry of the table whose expression matches, mapped to a
   * duration; nothing exactly when no entry's expression matches.
   */
  function FirstHit(ps: seq<Pattern>, s: string): (r: Option<Duration>)
    ensures r.None? <==> forall k | 0 <= k < |ps| :: Exec(ps[k].regex, s).None?
    ensures r.Some? ==> r.value.count != [] && r.value.unit != []
  {
    if ps == [] then None
    else match Exec(ps[0].regex, s)
      case Some(m) => Some(ps[0].Map(m.groups))
      case None => FirstHit(ps[1..], s)
  }

  /**
   * Lower-casing of one character: ASCII A to Z and the Cyrillic capitals
   * U+0400 to U+042F (Ѐ to Џ and А to Я); every other character is left alone.
   */
  function LowerChar(c: char): (r: char)
  {
    if 'A' <= c <= 'Z' then (c as int + 32) as char
    else if 'А' <= c <= 'Я' then (c as int + 32) as char
    else if '\U{0400}' <= c <= '\U{040F}' then (c as int + 80) as char
    else c
  }

  /** `toLowerCase`, character by character. */
  function Lower(s: string): (r: string)
    ensures |r| == |s|
  {
    seq(|s|, i requires 0 <= i < |s| => LowerChar(s[i]))
  }

  predicate OccursAt(s: string, sub: string, i: nat)
  {
    i + |sub| <= |s| && s[i..i + |sub|] == sub
  }

  /**
   * `String.prototype.includes`: some position of the text starts the
   * phrase; the phrase is never longer than the text, and the empty phrase
   * is in every text.
   */
  predicate Contains(s: string, sub: string): (r: bool)
    ensures r ==> |sub| <= |s|
    ensures sub == [] ==> r
  {
    assert sub == [] ==> OccursAt(s, sub, 0);
    exists i: nat | i <= |s| :: OccursAt(s, sub, i)
  }

  /**
   * The outcome for one item description (src/cli.ts:115-131): a found
   * duration has a non-empty count and unit, and Unknown is reported only
   * when the lower-cased description mentions the marker phrase.
   */
  function Extract(description: string): (r: Extraction)
    ensures r.Found? ==> r.duration.count != [] && r.duration.unit != []
    ensures r.Unknown? ==> Contains(Lower(description), Marker)
  {
    match FirstHit(Patterns, description)
    case Some(d) => Found(d)
    case None => if Contains(Lower(description), Marker) then Unknown else NoMatch
  }

  /** The table is consulted in order: A, then B. */
  lemma TableOrder(s: string)
    ensures FirstHit(Patterns, s) ==
      match Exec(PatternA.regex, s)
      case Some(m) => Some(PatternA.Map(m.groups))
      case None =>
        match Exec(PatternB.regex, s)
        case Some(m) => Some(PatternB.Map(m.groups))
        case None => None
  {
    assert Patterns[1..] == [PatternB];
    assert [PatternB][1..] == [];
    assert FirstHit([PatternB], s) == match Exec(PatternB.regex, s)
      case Some(m) => Some(PatternB.Map(m.groups))
      case None => FirstHit([], s);
  }

  /** Both expressions of the table force maximal runs, so ExecCorrect applies to them. */
  lemma PatternsDeterministic()
    ensures Deterministic(PatternA.regex) && Deterministic(PatternB.regex)
  {
  }

  /**
   * Template A is tried first and wins whenever it matches anywhere; its
   * leftmost match gives (count, unit) = (group 2, group 1).
   */
  lemma {:induction false} ExtractTemplateA(s: string, m: Match)
    requires IsLeftmost(PatternA.regex, s, m)
    ensures Extract(s) == Found(Duration(m.groups.second, m.groups.first))
  {
    PatternsDeterministic();
    TableOrder(s);
    ExecCorrect(PatternA.regex, s, m);
  }

  /**
   * Template B is consulted only when A matches nowhere; its leftmost match
   * gives (count, unit) = (group 1, group 2).
   */
  lemma {:induction false} ExtractTemplateB(s: string, m: Match)
    requires forall p: nat, g: Groups :: !MatchesAt(PatternA.regex, s, p, g)
    requires IsLeftmost(PatternB.regex, s, m)
    ensures Extract(s) == Found(Duration(m.groups.first, m.groups.second))
  {
    PatternsDeterministic();
    TableOrder(s);
    ExecNone(PatternA.regex, s);
    ExecCorrect(PatternB.regex, s, m);
  }

  /** The outcome is Unknown exactly when neither template matches and the marker is there. */
  lemma {:induction false} ExtractUnknown(s: string)
    ensures Extract(s) == Unknown <==>
      && (forall p: nat, g: Groups :: !MatchesAt(PatternA.regex, s, p, g))
      && (forall p: nat, g: Groups :: !MatchesAt(PatternB.regex, s, p, g))
      && Contains(Lower(s), Marker)
  {
    PatternsDeterministic();
    TableOrder(s);
    ExecNone(PatternA.regex, s);
    ExecNone(PatternB.regex, s);
  }

  /** A found count is a non-empty run of digits and a found unit a non-empty Cyrillic word. */
  lemma {:induction false} FoundWellFormed(s: string)
    requires Extract(s).Found?
    ensures var d := Extract(s).duration;
      && d.count != [] && AllIn(Digit, d.count)
      && d.unit != [] && AllIn(CyrillicLetter, d.unit)
  {
    PatternsDeterministic();
    TableOrder(s);
    match Exec(PatternA.regex, s)
    case Some(a) => ExecCorrect(PatternA.regex, s, a);
    case None =>
      var b := Exec(PatternB.regex, s).value;
      ExecCorrect(PatternB.regex, s, b);
  }

  /** Lower-casing commutes with taking a slice. */
  lemma LowerSlice(s: string, i: nat, j: nat)
    requires i <= j <= |s|
    ensures Lower(s)[i..j] == Lower(s[i..j])
  {
  }

  /** Both markers begin with the marker phrase in its capitalised spelling. */
  lemma MarkersLowerToPhrase()
    ensures Lower(PatternA.regex.marker[..13]) == Marker
    ensures Lower(PatternB.regex.marker[..13]) == Marker
  {
    assert PatternA.regex.marker[..13] == PatternB.regex.marker[..13] == "Срок хранения";
    var w := Lower("Срок хранения");
    assert w[0] == 'с' && w[1] == 'р' && w[2] == 'о' && w[3] == 'к' && w[4] == ' ';
    assert w[5] == 'х' && w[6] == 'р' && w[7] == 'а' && w[8] == 'н' && w[9] == 'е';
    assert w[10] == 'н' && w[11] == 'и' && w[12] == 'я';
  }

  /** Whatever a template matches contains the marker phrase once lower-cased. */
  lemma {:induction false} MatchHasMarker(pat: Pattern, s: string, m: Match)
    requires pat == PatternA || pat == PatternB
    requires Exec(pat.regex, s) == Some(m)
    ensures Contains(Lower(s), Marker)
  {
    var t, p := pat.regex, m.index;
    assert p + |t.marker| <= |s| && s[p..p + |t.marker|] == t.marker by {
      SearchFound(t, s, 0);
      assert MatchAt(t, s, p).Some?;
    }
    assert s[p..p + 13] == t.marker[..13];
    assert OccursAt(Lower(s), Marker, p) by {
      MarkersLowerToPhrase();
      LowerSlice(s, p, p + 13);
    }
  }

  /**
   * An item contributes nothing exactly when its lower-cased description
   * lacks the marker phrase: every template match carries the phrase, so a
   * description with the phrase yields Found or Unknown.
   */
  lemma {:induction false} NoMatchIffNoMarker(s: string)
    ensures Extract(s) == NoMatch <==> !Contains(Lower(s), Marker)
  {
    TableOrder(s);
    match Exec(PatternA.regex, s)
    case Some(m) => MatchHasMarker(PatternA, s, m);
    case None =>
      match Exec(PatternB.regex, s)
      case Some(m) => MatchHasMarker(PatternB, s, m);
      case None =>
  }

  /** The expression cannot match at q when the marker is not spelled there. */
  lemma MarkerMismatch(t: Template, s: string, q: nat, k: nat, g: Groups)
    requires k < |t.marker|
    requires q + |t.marker| <= |s| ==> s[q + k] != t.marker[k]
    ensures !MatchesAt(t, s, q, g)
  {
    if q + |t.marker| <= |s| {
      assert s[q..q + |t.marker|][k] == s[q + k];
    }
  }

  /** The description with the shelf life after a list of ingredients. */
  lemma ExampleTemplateA()
    ensures Extract("Состав: вода. " + "Срок хранения, дней: 10.") == Found(Duration("10", "дней"))
  {
    ExampleTemplateAMatch();
    ExampleTemplateANothingBefore();
    ExtractTemplateA("Состав: вода. " + "Срок хранения, дней: 10.", Match(14, Groups("дней", "10")));
  }

  lemma ExampleTemplateAMatch()
    ensures MatchesAt(PatternA.regex, "Состав: вода. " + "Срок хранения, дней: 10.", 14, Groups("дней", "10"))
  {
    ExampleTemplateAFromStart();
    MatchesShift(PatternA.regex, "Состав: вода. ", "Срок хранения, дней: 10.", Groups("дней", "10"));
  }

  lemma ExampleTemplateAFromStart()
    ensures MatchesAt(PatternA.regex, "Срок хранения, дней: 10.", 0, Groups("дней", "10"))
  {
    var w := "Срок хранения, дней: 10.";
    assert w[0..15] == PatternA.regex.marker;
    assert w[15..19] == "дней";
    assert w[19..21] == PatternA.regex.sep;
    assert w[21..23] == "10";
  }

  lemma ExampleTemplateANothingBefore()
    ensures forall q: nat, h: Groups | q < 14 ::
      !MatchesAt(PatternA.regex, "Состав: вода. " + "Срок хранения, дней: 10.", q, h)
  {
    var pre, w := "Состав: вода. ", "Срок хранения, дней: 10.";
    forall q: nat, h: Groups | q < 14
      ensures !MatchesAt(PatternA.regex, pre + w, q, h)
    {
      var k := if q == 0 then 1 else 0;
      assert (pre + w)[q + k] == pre[q + k];
      MarkerMismatch(PatternA.regex, pre + w, q, k, h);
    }
  }

  /** Matching does not depend on the text before the match. */
  lemma MatchesShift(t: Template, pre: string, w: string, g: Groups)
    ensures MatchesAt(t, pre + w, |pre|, g) <==> MatchesAt(t, w, 0, g)
  {
    var s := pre + w;
    var q := |t.marker|;
    var r := q + |g.first|;
    var b := r + |t.sep|;
    var e := b + |g.second|;
    if e <= |w| {
      SliceShift(pre, w, 0, q);
      SliceShift(pre, w, q, r);
      SliceShift(pre, w, r, b);
      SliceShift(pre, w, b, e);
      if e < |w| {
        assert s[|pre| + e] == w[e];
      }
    }
  }

  lemma SliceShift(pre: string, w: string, i: nat, j: nat)
    requires i <= j <= |w|
    ensures (pre + w)[|pre| + i..|pre| + j] == w[i..j]
  {
  }

  lemma ExampleTemplateB()
    ensures Extract("Срок хранения: 5 суток.") == Found(Duration("5", "суток"))
  {
    var s := "Срок хранения: 5 суток.";
    var t := PatternB.regex;
    var g := Groups("5", "суток");
    assert s[0..15] == t.marker;
    assert s[15..16] == g.first;
    assert s[16..17] == t.sep;
    assert s[17..22] == g.second;
    assert MatchesAt(t, s, 0, g);
    assert ':' !in PatternA.regex.marker && s[13] == ':';
    forall q: nat, h: Groups
      ensures !MatchesAt(PatternA.regex, s, q, h)
    {
      if q <= 13 {
        assert PatternA.regex.marker[13 - q] in PatternA.regex.marker;
        MarkerMismatch(PatternA.regex, s, q, 13 - q, h);
      } else {
        MarkerMismatch(PatternA.regex, s, q, 0, h);
      }
    }
    ExtractTemplateB(s, Match(0, g));
  }

  /** A description with the phrase but neither layout is reported as Unknown. */
  lemma ExampleUnknown()
    ensures Extract("Срок хранения не указан") == Unknown
  {
    var s := "Срок хранения не указан";
    forall q: nat, h: Groups
      ensures !MatchesAt(PatternA.regex, s, q, h)
      ensures !MatchesAt(PatternB.regex, s, q, h)
    {
      MarkerMismatch(PatternA.regex, s, q, if q == 0 then 13 else 0, h);
      MarkerMismatch(PatternB.regex, s, q, if q == 0 then 13 else 0, h);
    }
    assert OccursAt(Lower(s), Marker, 0) by {
      LowerSlice(s, 0, 13);
      assert s[0..13] == PatternA.regex.marker[..13];
      MarkersLowerToPhrase();
    }
    ExtractUnknown(s);
  }

  /** A description without the phrase contributes nothing. */
  lemma ExampleNoMatch()
    ensures Extract("Вода питьевая") == NoMatch
  {
    var s := "Вода питьевая";
    assert |s| == |Marker| == 13;
    assert Lower(s)[0] == 'в' by {
      assert s[0] == 'В';
    }
    forall i: nat | i <= |s|
      ensures !OccursAt(Lower(s), Marker, i)
    {
      if i + |Marker| <= |s| {
        assert Lower(s)[i..i + |Marker|][0] == Lower(s)[0];
      }
    }
    NoMatchIffNoMarker(s);
  }
}
