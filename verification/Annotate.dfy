/** Grading the source text by the confidence it declares (loop/paper_markers.py, `annotate`, `tier_at`,
    `_normalize_with_map`). What a line's text matches is given; the scan over the lines is modelled. */
module Annotate {
  import opened Wrappers
  import opened Strings

  /* ------------------------------------------------------------ lines and labels */

  datatype Tier = Prose | Literal | CrossCheck | Inferred | Uncertain

  /** One line, with what the four patterns find in it. */
  datatype Line = Line(length: nat, opens: Option<string>, closes: bool, section: Option<string>, marker: Option<Tier>)

  /** Where in the source a character lies: block, section and tier. */
  datatype Place = Place(block: string, section: string, tier: Tier)

  const OUTSIDE: Place := Place("", "", Prose)

  predicate Hedged(t: Tier) {
    t == Inferred || t == Uncertain
  }

  datatype Effect = Opens(block: string) | Closes | Sections(name: string) | Marks(tier: Tier) | Nothing

  /** What a line does, given the block it stands in. */
  function EffectOf(block: string, line: Line): Effect {
    if line.opens.Some? then Opens(line.opens.value)
    else if block != "" && line.closes then Closes
    else if block != "" && line.section.Some? then Sections(line.section.value)
    else if line.marker.Some? then Marks(line.marker.value)
    else Nothing
  }

  function Next(p: Place, e: Effect): Place {
    match e
    case Opens(block) => Place(block, "", Prose)
    case Closes => OUTSIDE
    case Sections(name) => Place(p.block, name, Prose)
    case Marks(tier) => Place(p.block, p.section, tier)
    case Nothing => p
  }

  /** The place the scanner is in before line i. */
  function Before(lines: seq<Line>, i: nat): Place
    requires i <= |lines|
  {
    if i == 0 then OUTSIDE else Next(Before(lines, i - 1), EffectOf(Before(lines, i - 1).block, lines[i - 1]))
  }

  function EffectAt(lines: seq<Line>, i: nat): Effect
    requires i < |lines|
  {
    EffectOf(Before(lines, i).block, lines[i])
  }

  /** The grade of line i itself: a line that opens, sections or marks belongs to what it begins, a closing line to
      what it ends. */
  function Label(lines: seq<Line>, i: nat): Place
    requires i < |lines|
  {
    if EffectAt(lines, i) == Closes then Before(lines, i) else Before(lines, i + 1)
  }

  /* ------------------------------------------------------------ the place, by the lines themselves */

  /** Block `b` was opened above line i, and no line since has opened one or closed it. */
  ghost predicate OpenAt(lines: seq<Line>, i: nat, b: string)
    requires i <= |lines|
  {
    exists o :: 0 <= o < i && lines[o].opens == Some(b) && forall k :: o < k < i ==> lines[k].opens == None && !lines[k].closes
  }

  ghost predicate InBlock(lines: seq<Line>, i: nat)
    requires i <= |lines|
  {
    exists b :: b != "" && OpenAt(lines, i, b)
  }

  /** The line opens a block, or closes or sections the one it is in. */
  ghost predicate Turns(lines: seq<Line>, k: nat)
    requires k < |lines|
  {
    lines[k].opens.Some? || (InBlock(lines, k) && (lines[k].closes || lines[k].section.Some?))
  }

  /** Line t names the section line i is in. */
  ghost predicate NamesSection(lines: seq<Line>, t: nat, i: nat)
    requires i <= |lines|
  {
    && t < i && lines[t].section.Some? && lines[t].opens == None && !lines[t].closes && InBlock(lines, t)
    && forall k :: t < k < i ==> lines[k].opens == None && !lines[k].closes && lines[k].section == None
  }

  /** Line t marks the grade line i begins with: it is the last marker, and nothing has turned since. */
  ghost predicate Grades(lines: seq<Line>, t: nat, i: nat)
    requires i <= |lines|
  {
    && t < i && lines[t].marker.Some? && !Turns(lines, t)
    && forall k :: t < k < i ==> lines[k].marker == None && !Turns(lines, k)
  }

  ghost predicate IsPlace(lines: seq<Line>, i: nat, p: Place)
    requires i <= |lines|
  {
    && (if p.block == "" then !InBlock(lines, i) else OpenAt(lines, i, p.block))
    && IsSection(lines, i, p.block, p.section) && IsTier(lines, i, p.tier)
  }

  ghost predicate IsSection(lines: seq<Line>, i: nat, block: string, section: string)
    requires i <= |lines|
  {
    if block == "" then section == ""
    else (exists t: nat :: NamesSection(lines, t, i) && lines[t].section == Some(section))
         || (section == "" && forall t: nat :: !NamesSection(lines, t, i))
  }

  ghost predicate IsTier(lines: seq<Line>, i: nat, tier: Tier)
    requires i <= |lines|
  {
    (exists t: nat :: Grades(lines, t, i) && lines[t].marker == Some(tier)) || (tier == Prose && forall t: nat :: !Grades(lines, t, i))
  }

  lemma OpenSteps(lines: seq<Line>, i: nat, b: string)
    requires i < |lines|
    ensures OpenAt(lines, i + 1, b) <==>
            lines[i].opens == Some(b) || (lines[i].opens == None && !lines[i].closes && OpenAt(lines, i, b))
  {
    if OpenAt(lines, i + 1, b) {
      var o :| 0 <= o < i + 1 && lines[o].opens == Some(b) && forall k :: o < k < i + 1 ==> lines[k].opens == None && !lines[k].closes;
    }
    if lines[i].opens == None && !lines[i].closes && OpenAt(lines, i, b) {
      var o :| 0 <= o < i && lines[o].opens == Some(b) && forall k :: o < k < i ==> lines[k].opens == None && !lines[k].closes;
      assert 0 <= o < i + 1;
    }
  }

  lemma SectionSteps(lines: seq<Line>, i: nat, t: nat)
    requires i < |lines|
    ensures NamesSection(lines, t, i + 1) <==>
            if t == i then lines[i].section.Some? && lines[i].opens == None && !lines[i].closes && InBlock(lines, i)
            else NamesSection(lines, t, i) && lines[i].opens == None && !lines[i].closes && lines[i].section == None
  {
    hide InBlock;
  }

  lemma GradeSteps(lines: seq<Line>, i: nat, t: nat)
    requires i < |lines|
    ensures Grades(lines, t, i + 1) <==>
            if t == i then lines[i].marker.Some? && !Turns(lines, i)
            else Grades(lines, t, i) && lines[i].marker == None && !Turns(lines, i)
  {
    hide Turns;
  }

  /** One block is open at most. */
  lemma OneOpen(lines: seq<Line>, i: nat, a: string, b: string)
    requires i <= |lines| && OpenAt(lines, i, a) && OpenAt(lines, i, b)
    ensures a == b
  {
    var o :| 0 <= o < i && lines[o].opens == Some(a) && forall k :: o < k < i ==> lines[k].opens == None && !lines[k].closes;
    var q :| 0 <= q < i && lines[q].opens == Some(b) && forall k :: q < k < i ==> lines[k].opens == None && !lines[k].closes;
    assert o == q;
  }

  lemma BlockSteps(lines: seq<Line>, i: nat, p: Place)
    requires i < |lines| && IsPlace(lines, i, p)
    ensures InBlock(lines, i) <==> p.block != ""
    ensures var q := Next(p, EffectOf(p.block, lines[i])); if q.block == "" then !InBlock(lines, i + 1) else OpenAt(lines, i + 1, q.block)
  {
    hide OpenAt, IsSection, IsTier;
    var n := i + 1;
    forall b
      ensures OpenAt(lines, n, b) <==>
              lines[i].opens == Some(b) || (lines[i].opens == None && !lines[i].closes && OpenAt(lines, i, b))
    {
      OpenSteps(lines, i, b);
    }
    if p.block != "" {
      assert InBlock(lines, i);
      forall b | OpenAt(lines, i, b)
        ensures b == p.block
      {
        OneOpen(lines, i, b, p.block);
      }
    }
  }

  lemma SectionGoesOn(lines: seq<Line>, i: nat, p: Place)
    requires i < |lines| && IsSection(lines, i, p.block, p.section) && (InBlock(lines, i) <==> p.block != "")
    ensures var q := Next(p, EffectOf(p.block, lines[i])); IsSection(lines, i + 1, q.block, q.section)
  {
    hide InBlock, NamesSection;
    var n := i + 1;
    forall t: nat
      ensures NamesSection(lines, t, n) <==>
              if t == i then lines[i].section.Some? && lines[i].opens == None && !lines[i].closes && InBlock(lines, i)
              else NamesSection(lines, t, i) && lines[i].opens == None && !lines[i].closes && lines[i].section == None
    {
      SectionSteps(lines, i, t);
    }
    NamedBefore(lines, i);
    if lines[i].opens == None && p.block != "" && !lines[i].closes {
      if lines[i].section == None {
        if t: nat :| NamesSection(lines, t, i) && lines[t].section == Some(p.section) {
          assert NamesSection(lines, t, n);
        }
      } else {
        assert NamesSection(lines, i, n);
      }
    }
  }

  lemma NamedBefore(lines: seq<Line>, i: nat)
    requires i <= |lines|
    ensures forall t: nat :: NamesSection(lines, t, i) ==> t < i
    ensures forall t: nat :: Grades(lines, t, i) ==> t < i
  {
    hide InBlock, Turns;
  }

  lemma TierGoesOn(lines: seq<Line>, i: nat, p: Place)
    requires i < |lines| && IsTier(lines, i, p.tier) && (InBlock(lines, i) <==> p.block != "")
    ensures IsTier(lines, i + 1, Next(p, EffectOf(p.block, lines[i])).tier)
  {
    hide InBlock, Grades;
    var n := i + 1;
    forall t: nat
      ensures Grades(lines, t, n) <==>
              if t == i then lines[i].marker.Some? && !Turns(lines, i) else Grades(lines, t, i) && lines[i].marker == None && !Turns(lines, i)
    {
      GradeSteps(lines, i, t);
    }
    NamedBefore(lines, i);
    if !Turns(lines, i) {
      if lines[i].marker.Some? {
        assert Grades(lines, i, n);
      } else if t: nat :| Grades(lines, t, i) && lines[t].marker == Some(p.tier) {
        assert Grades(lines, t, n);
      }
    }
  }

  /** The scanner's place, read off the lines above: the block open there, its last section, and the last marker since
      anything turned. */
  lemma {:induction false} BeforeIsPlace(lines: seq<Line>, i: nat)
    requires i <= |lines|
    ensures IsPlace(lines, i, Before(lines, i))
  {
    hide IsSection, IsTier, InBlock, OpenAt;
    if i == 0 {
      NothingAbove(lines);
    } else {
      BeforeIsPlace(lines, i - 1);
      var p := Before(lines, i - 1);
      BlockSteps(lines, i - 1, p);
      SectionGoesOn(lines, i - 1, p);
      TierGoesOn(lines, i - 1, p);
    }
  }

  lemma NothingAbove(lines: seq<Line>)
    ensures IsPlace(lines, 0, OUTSIDE)
  {
  }

  /** A line that closes its block belongs to it; any other line belongs to the place that follows it. */
  lemma LabelIs(lines: seq<Line>, i: nat)
    requires i < |lines|
    ensures IsPlace(lines, if lines[i].opens == None && lines[i].closes && InBlock(lines, i) then i else i + 1, Label(lines, i))
  {
    hide IsSection, IsTier, InBlock, OpenAt;
    BeforeIsPlace(lines, i);
    BeforeIsPlace(lines, i + 1);
    BlockSteps(lines, i, Before(lines, i));
  }

  /** Where line i begins. */
  function Offset(lines: seq<Line>, i: nat): nat
    requires i <= |lines|
  {
    if i == 0 then 0 else Offset(lines, i - 1) + lines[i - 1].length
  }

  ghost predicate RealLines(lines: seq<Line>) {
    forall i :: 0 <= i < |lines| ==> lines[i].length > 0
  }

  lemma {:induction false} OffsetGrows(lines: seq<Line>, i: nat, j: nat)
    requires RealLines(lines) && i <= j <= |lines|
    ensures Offset(lines, i) <= Offset(lines, j) && (i < j ==> Offset(lines, i) < Offset(lines, j))
  {
    if i < j {
      OffsetGrows(lines, i, j - 1);
    }
  }

  /* ------------------------------------------------------------ spans */

  datatype Span = Span(start: nat, end: nat, place: Place)

  /** Lines a to b, all of one label, under one span. */
  ghost predicate Covers(lines: seq<Line>, s: Span, a: nat, b: nat) {
    && a < b <= |lines| && s.start == Offset(lines, a) && s.end == Offset(lines, b)
    && forall k :: a <= k < b ==> Label(lines, k) == s.place
  }

  /** The spans follow one another, cut at these lines, from the start up to line n. */
  ghost predicate Tiles(lines: seq<Line>, spans: seq<Span>, cuts: seq<nat>, n: nat) {
    && |cuts| == |spans| + 1 && cuts[0] == 0 && cuts[|spans|] == n
    && forall m :: 0 <= m < |spans| ==> Covers(lines, spans[m], cuts[m], cuts[m + 1])
  }

  lemma OneMoreSpan(lines: seq<Line>, spans: seq<Span>, cuts: seq<nat>, n: nat, to: nat, place: Place)
    requires n <= to <= |lines| && RealLines(lines) && Tiles(lines, spans, cuts, n)
    requires forall k :: n <= k < to ==> Label(lines, k) == place
    ensures Offset(lines, n) < Offset(lines, to) <==> n < to
    ensures if n < to then Tiles(lines, spans + [Span(Offset(lines, n), Offset(lines, to), place)], cuts + [to], to)
            else Tiles(lines, spans, cuts, to)
  {
    hide Label, Offset;
    OffsetGrows(lines, n, to);
    if n < to {
      var more, longer := spans + [Span(Offset(lines, n), Offset(lines, to), place)], cuts + [to];
      forall m | 0 <= m < |more|
        ensures Covers(lines, more[m], longer[m], longer[m + 1])
      {
        if m < |spans| {
          assert more[m] == spans[m] && longer[m] == cuts[m] && longer[m + 1] == cuts[m + 1];
        }
      }
    }
  }

  /* ------------------------------------------------------------ notes */

  datatype Note = Note(tier: Tier, number: nat, place: Place, start: nat, end: nat)

  /** Line i begins a hedged paragraph. */
  predicate Hedges(lines: seq<Line>, i: nat)
    requires i < |lines|
  {
    EffectAt(lines, i).Marks? && Hedged(EffectAt(lines, i).tier)
  }

  /** The first line from k on that does something. */
  function NextEffect(lines: seq<Line>, k: nat): (n: nat)
    requires k <= |lines|
    ensures k <= n <= |lines|
    ensures n < |lines| ==> EffectAt(lines, n) != Nothing
    ensures forall m :: k <= m < n ==> EffectAt(lines, m) == Nothing
    decreases |lines| - k
  {
    if k == |lines| || EffectAt(lines, k) != Nothing then k else NextEffect(lines, k + 1)
  }

  /** How many paragraphs of this tier begin before line i. */
  function CountHedges(lines: seq<Line>, i: nat, t: Tier): nat
    requires i <= |lines|
  {
    if i == 0 then 0
    else CountHedges(lines, i - 1, t) + (if EffectAt(lines, i - 1) == Marks(t) && Hedged(t) then 1 else 0)
  }

  /** The note a hedged paragraph gets: numbered within its tier, up to the next line that does something. */
  function NoteOf(lines: seq<Line>, i: nat): Note
    requires i < |lines| && Hedges(lines, i)
  {
    var t := EffectAt(lines, i).tier;
    Note(t, CountHedges(lines, i, t) + 1, Before(lines, i + 1), Offset(lines, i), Offset(lines, NextEffect(lines, i + 1)))
  }

  /** The notes of the paragraphs that begin before line n, in order. */
  function Notes(lines: seq<Line>, n: nat): seq<Note>
    requires n <= |lines|
  {
    if n == 0 then [] else Notes(lines, n - 1) + (if Hedges(lines, n - 1) then [NoteOf(lines, n - 1)] else [])
  }

  /* ------------------------------------------------------------ the scan */

  /** The lines since `from` did nothing, and the scanner is still where line `from` put it. */
  ghost predicate Quiet(lines: seq<Line>, from: nat, i: nat, place: Place) {
    && from <= i <= |lines| && Before(lines, i) == place
    && (forall k :: from <= k < i ==> Label(lines, k) == place)
    && (forall k :: from < k < i ==> EffectAt(lines, k) == Nothing)
  }

  /** The notes closed so far: those of every paragraph begun before line `from`, unless the one `from` begins is
      closed as well. */
  ghost predicate NotesUpTo(lines: seq<Line>, from: nat, place: Place, notes: seq<Note>, counts: map<Tier, nat>, noteStart: nat)
    requires from <= |lines|
  {
    && notes == Notes(lines, from) && Inferred in counts && Uncertain in counts
    && counts[Inferred] == CountHedges(lines, from, Inferred) && counts[Uncertain] == CountHedges(lines, from, Uncertain)
    && (Hedged(place.tier) ==> from < |lines| && EffectAt(lines, from) == Marks(place.tier) && noteStart == Offset(lines, from))
  }

  /** `close_note` then `close`, at a line that does something, or at the end. */
  lemma ClosesRight(lines: seq<Line>, from: nat, i: nat, place: Place, notes: seq<Note>, counts: map<Tier, nat>, noteStart: nat)
    requires Quiet(lines, from, i, place) && NotesUpTo(lines, from, place, notes, counts, noteStart)
    requires from < i || !Hedged(place.tier)
    requires i < |lines| ==> EffectAt(lines, i) != Nothing
    ensures Notes(lines, i) == if Hedged(place.tier)
                               then notes + [Note(place.tier, counts[place.tier] + 1, place, noteStart, Offset(lines, i))]
                               else notes
    ensures forall t :: t == Inferred || t == Uncertain ==>
              CountHedges(lines, i, t) == counts[t] + (if t == place.tier then 1 else 0)
  {
    hide Offset, Label, Before;
    if from < i {
      NextIs(lines, from + 1, i);
      QuietNotes(lines, from, i, i);
      StillThere(lines, from, i, place);
      HedgesMeans(lines, from);
    }
  }

  lemma HedgesMeans(lines: seq<Line>, i: nat)
    requires i < |lines|
    ensures Hedges(lines, i) ==> Hedged(Before(lines, i + 1).tier) && EffectAt(lines, i) == Marks(Before(lines, i + 1).tier)
  {
  }

  lemma {:induction false} NextIs(lines: seq<Line>, k: nat, i: nat)
    requires k <= i <= |lines| && (forall m :: k <= m < i ==> EffectAt(lines, m) == Nothing)
    requires i < |lines| ==> EffectAt(lines, i) != Nothing
    ensures NextEffect(lines, k) == i
    decreases i - k
  {
    hide EffectAt;
    if k < i {
      NextIs(lines, k + 1, i);
    }
  }

  /** Lines that do nothing begin no paragraph. */
  lemma {:induction false} QuietNotes(lines: seq<Line>, from: nat, i: nat, n: nat)
    requires from < n <= i <= |lines| && forall k :: from < k < i ==> EffectAt(lines, k) == Nothing
    ensures Notes(lines, n) == Notes(lines, from + 1)
    ensures forall t :: CountHedges(lines, n, t) == CountHedges(lines, from + 1, t)
    decreases n
  {
    hide EffectAt;
    if n > from + 1 {
      QuietNotes(lines, from, i, n - 1);
    }
  }

  lemma {:induction false} StillThere(lines: seq<Line>, from: nat, i: nat, place: Place)
    requires from < i <= |lines| && Before(lines, i) == place && forall k :: from < k < i ==> EffectAt(lines, k) == Nothing
    ensures Before(lines, from + 1) == place
    decreases i
  {
    if i > from + 1 {
      assert EffectAt(lines, i - 1) == Nothing;
      StillThere(lines, from, i - 1, place);
    }
  }

  function WithSpan(spans: seq<Span>, start: nat, at: nat, place: Place): seq<Span> {
    if at > start then spans + [Span(start, at, place)] else spans
  }

  function WithNote(notes: seq<Note>, counts: map<Tier, nat>, place: Place, noteStart: nat, at: nat): seq<Note>
    requires Inferred in counts && Uncertain in counts
  {
    if Hedged(place.tier) then notes + [Note(place.tier, counts[place.tier] + 1, place, noteStart, at)] else notes
  }

  function Counted(counts: map<Tier, nat>, place: Place): map<Tier, nat>
    requires Inferred in counts && Uncertain in counts
  {
    if Hedged(place.tier) then counts[place.tier := counts[place.tier] + 1] else counts
  }

  function NoteStart(e: Effect, offset: nat, noteStart: nat): nat {
    if e.Marks? then offset else noteStart
  }

  /** Spans with no grade and no block are dropped at the end. */
  function Graded(spans: seq<Span>): (out: seq<Span>)
    ensures forall s :: s in out <==> s in spans && (s.place.tier != Prose || s.place.block != "")
  {
    if spans == [] then []
    else
      var last := spans[|spans| - 1];
      assert spans == spans[..|spans| - 1] + [last];
      Graded(spans[..|spans| - 1]) + (if last.place.tier != Prose || last.place.block != "" then [last] else [])
  }

  ghost predicate Scanning(lines: seq<Line>, i: nat, from: nat, place: Place, start: nat, offset: nat, spans: seq<Span>,
                           cuts: seq<nat>, notes: seq<Note>, counts: map<Tier, nat>, noteStart: nat) {
    && Quiet(lines, from, i, place) && start == Offset(lines, from) && offset == Offset(lines, i)
    && Tiles(lines, spans, cuts, from) && NotesUpTo(lines, from, place, notes, counts, noteStart)
    && (from == i ==> !Hedged(place.tier))
  }

  lemma ScanStarts(lines: seq<Line>)
    ensures Scanning(lines, 0, 0, OUTSIDE, 0, 0, [], [0], [], map[Inferred := 0, Uncertain := 0], 0)
  {
  }

  lemma ScanWaits(lines: seq<Line>, i: nat, from: nat, place: Place, start: nat, offset: nat, spans: seq<Span>,
                  cuts: seq<nat>, notes: seq<Note>, counts: map<Tier, nat>, noteStart: nat)
    requires i < |lines| && Scanning(lines, i, from, place, start, offset, spans, cuts, notes, counts, noteStart)
    requires EffectAt(lines, i) == Nothing
    ensures Scanning(lines, i + 1, from, place, start, offset + lines[i].length, spans, cuts, notes, counts, noteStart)
  {
    hide Tiles, NotesUpTo;
    assert Label(lines, i) == place;
  }

  function NewCuts(cuts: seq<nat>, from: nat, to: nat): seq<nat> {
    if from < to then cuts + [to] else cuts
  }

  /** What ends at line i: its note, and its span. */
  lemma ScanEnds(lines: seq<Line>, i: nat, from: nat, place: Place, start: nat, offset: nat, spans: seq<Span>,
                 cuts: seq<nat>, notes: seq<Note>, counts: map<Tier, nat>, noteStart: nat)
    requires RealLines(lines) && i <= |lines|
    requires Scanning(lines, i, from, place, start, offset, spans, cuts, notes, counts, noteStart)
    requires i < |lines| ==> EffectAt(lines, i) != Nothing
    ensures WithNote(notes, counts, place, noteStart, offset) == Notes(lines, i)
    ensures var c := Counted(counts, place);
            && Inferred in c && c[Inferred] == CountHedges(lines, i, Inferred)
            && Uncertain in c && c[Uncertain] == CountHedges(lines, i, Uncertain)
    ensures Tiles(lines, WithSpan(spans, start, offset, place), NewCuts(cuts, from, i), i)
  {
    hide Label, Before, EffectAt, Notes, CountHedges, Tiles, Offset;
    ClosesRight(lines, from, i, place, notes, counts, noteStart);
    OneMoreSpan(lines, spans, cuts, from, i, place);
  }

  /** A line that opens, sections or marks: what came before it ends, and the scan goes on from it. */
  lemma ScanTurns(lines: seq<Line>, i: nat, from: nat, place: Place, start: nat, offset: nat, spans: seq<Span>,
                  cuts: seq<nat>, notes: seq<Note>, counts: map<Tier, nat>, noteStart: nat)
    requires RealLines(lines) && i < |lines|
    requires Scanning(lines, i, from, place, start, offset, spans, cuts, notes, counts, noteStart)
    requires EffectAt(lines, i) != Nothing && EffectAt(lines, i) != Closes
    ensures Scanning(lines, i + 1, i, Next(place, EffectAt(lines, i)), offset, offset + lines[i].length,
                     WithSpan(spans, start, offset, place), NewCuts(cuts, from, i),
                     WithNote(notes, counts, place, noteStart, offset), Counted(counts, place),
                     NoteStart(EffectAt(lines, i), offset, noteStart))
  {
    hide Tiles, Notes, CountHedges, WithSpan, WithNote, Counted, NewCuts, EffectOf;
    ScanEnds(lines, i, from, place, start, offset, spans, cuts, notes, counts, noteStart);
    assert Label(lines, i) == Next(place, EffectAt(lines, i));
  }

  /** A closing line: it ends with what it closes, and the scan goes on after it. */
  lemma ScanCloses(lines: seq<Line>, i: nat, from: nat, place: Place, start: nat, offset: nat, spans: seq<Span>,
                   cuts: seq<nat>, notes: seq<Note>, counts: map<Tier, nat>, noteStart: nat)
    requires RealLines(lines) && i < |lines|
    requires Scanning(lines, i, from, place, start, offset, spans, cuts, notes, counts, noteStart)
    requires EffectAt(lines, i) == Closes
    ensures var end := offset + lines[i].length;
            Scanning(lines, i + 1, i + 1, OUTSIDE, end, end, WithSpan(spans, start, end, place),
                     NewCuts(cuts, from, i + 1), WithNote(notes, counts, place, noteStart, offset),
                     Counted(counts, place), noteStart)
  {
    hide Tiles, WithNote, Counted, EffectOf;
    ScanEnds(lines, i, from, place, start, offset, spans, cuts, notes, counts, noteStart);
    assert Label(lines, i) == place;
    OneMoreSpan(lines, spans, cuts, from, i + 1, place);
  }

  /** `annotate`. */
  method Annotate(lines: seq<Line>) returns (spans: seq<Span>, notes: seq<Note>, ghost all: seq<Span>, ghost cuts: seq<nat>)
    requires RealLines(lines)
    ensures Tiles(lines, all, cuts, |lines|) && spans == Graded(all)
    ensures notes == Notes(lines, |lines|)
  {
    hide Scanning, Tiles, Notes, Label, Before, EffectAt, WithSpan, WithNote, Counted, Next, EffectOf, NewCuts;
    var place := OUTSIDE;
    var start: nat, offset: nat, noteStart: nat := 0, 0, 0;
    var counts: map<Tier, nat> := map[Inferred := 0, Uncertain := 0];
    ghost var from: nat := 0;
    cuts := [0];
    spans, notes := [], [];
    ScanStarts(lines);
    for i := 0 to |lines|
      invariant Scanning(lines, i, from, place, start, offset, spans, cuts, notes, counts, noteStart)
    {
      ScanPlace(lines, i, from, place, start, offset, spans, cuts, notes, counts, noteStart);
      var effect := EffectOf(place.block, lines[i]);
      var lineEnd := offset + lines[i].length;
      match effect {
        case Nothing =>
          ScanWaits(lines, i, from, place, start, offset, spans, cuts, notes, counts, noteStart);
        case Closes =>
          ScanCloses(lines, i, from, place, start, offset, spans, cuts, notes, counts, noteStart);
          notes, counts := WithNote(notes, counts, place, noteStart, offset), Counted(counts, place);
          spans, cuts := WithSpan(spans, start, lineEnd, place), NewCuts(cuts, from, i + 1);
          place, start, from := OUTSIDE, lineEnd, i + 1;
        case _ =>
          ScanTurns(lines, i, from, place, start, offset, spans, cuts, notes, counts, noteStart);
          notes, counts := WithNote(notes, counts, place, noteStart, offset), Counted(counts, place);
          spans, cuts := WithSpan(spans, start, offset, place), NewCuts(cuts, from, i);
          noteStart := NoteStart(effect, offset, noteStart);
          place, start, from := Next(place, effect), offset, i;
      }
      offset := lineEnd;
    }
    ScanPlace(lines, |lines|, from, place, start, offset, spans, cuts, notes, counts, noteStart);
    ScanEnds(lines, |lines|, from, place, start, offset, spans, cuts, notes, counts, noteStart);
    notes := WithNote(notes, counts, place, noteStart, offset);
    all, cuts := WithSpan(spans, start, offset, place), NewCuts(cuts, from, |lines|);
    spans := Graded(WithSpan(spans, start, offset, place));
  }

  lemma ScanPlace(lines: seq<Line>, i: nat, from: nat, place: Place, start: nat, offset: nat, spans: seq<Span>,
                  cuts: seq<nat>, notes: seq<Note>, counts: map<Tier, nat>, noteStart: nat)
    requires i <= |lines| && Scanning(lines, i, from, place, start, offset, spans, cuts, notes, counts, noteStart)
    ensures Inferred in counts && Uncertain in counts
    ensures i < |lines| ==> EffectOf(place.block, lines[i]) == EffectAt(lines, i)
  {
    hide Label, Tiles, Notes;
  }

  /* ------------------------------------------------------------ looking a character up */

  /** The spans put every character of every line in exactly one span, and that one has the line's label. */
  lemma SpanOfLine(lines: seq<Line>, all: seq<Span>, cuts: seq<nat>, k: nat, offset: nat)
    requires RealLines(lines) && Tiles(lines, all, cuts, |lines|) && k < |lines|
    requires Offset(lines, k) <= offset < Offset(lines, k + 1)
    ensures exists s :: s in all && s.start <= offset < s.end
    ensures forall s :: s in all && s.start <= offset < s.end ==> s.place == Label(lines, k)
  {
    hide Label, Offset;
    var m := CutBefore(cuts, k);
    OffsetGrows(lines, cuts[m], k);
    OffsetGrows(lines, k + 1, cuts[m + 1]);
    assert Covers(lines, all[m], cuts[m], cuts[m + 1]);
    assert all[m] in all;
    forall s | s in all && s.start <= offset < s.end
      ensures s.place == Label(lines, k)
    {
      var n :| 0 <= n < |all| && all[n] == s;
      assert Covers(lines, s, cuts[n], cuts[n + 1]);
      LineInside(lines, cuts[n], cuts[n + 1], k, offset);
    }
  }

  lemma LineInside(lines: seq<Line>, a: nat, b: nat, k: nat, offset: nat)
    requires RealLines(lines) && a < b <= |lines| && k < |lines|
    requires Offset(lines, a) <= offset < Offset(lines, b) && Offset(lines, k) <= offset < Offset(lines, k + 1)
    ensures a <= k < b
  {
    hide Offset;
    if k < a {
      OffsetGrows(lines, k + 1, a);
    } else if b <= k {
      OffsetGrows(lines, b, k);
    }
  }

  lemma CutBefore(cuts: seq<nat>, k: nat) returns (m: nat)
    requires |cuts| >= 2 || k >= 0
    requires |cuts| > 0 && cuts[0] <= k < cuts[|cuts| - 1]
    ensures m + 1 < |cuts| && cuts[m] <= k < cuts[m + 1]
    decreases |cuts|
  {
    m := 0;
    while cuts[m + 1] <= k
      invariant m + 1 < |cuts| && cuts[m] <= k
      decreases |cuts| - m
    {
      m := m + 1;
    }
  }

  /** `span_at`. */
  method SpanAt(spans: seq<Span>, offset: nat) returns (found: Option<Span>)
    ensures found.Some? ==> found.value in spans && found.value.start <= offset < found.value.end
    ensures found == None ==> forall s :: s in spans ==> !(s.start <= offset < s.end)
  {
    for i := 0 to |spans|
      invariant forall j :: 0 <= j < i ==> !(spans[j].start <= offset < spans[j].end)
    {
      if spans[i].start <= offset < spans[i].end {
        return Some(spans[i]);
      }
    }
    found := None;
  }

  /** `tier_at`, on what `annotate` returned: the tier the scan gave the line the character is in, and its place
      whenever that place is graded at all. */
  method TierAt(lines: seq<Line>, spans: seq<Span>, offset: nat, ghost all: seq<Span>, ghost cuts: seq<nat>, ghost k: nat)
    returns (tier: Tier, found: Option<Span>)
    requires RealLines(lines) && Tiles(lines, all, cuts, |lines|) && spans == Graded(all)
    requires k < |lines| && Offset(lines, k) <= offset < Offset(lines, k + 1)
    ensures tier == Label(lines, k).tier
    ensures found.Some? <==> Label(lines, k).tier != Prose || Label(lines, k).block != ""
    ensures found.Some? ==> found.value.place == Label(lines, k)
  {
    hide Label, Offset, Tiles, Graded;
    SpanOfLine(lines, all, cuts, k, offset);
    found := SpanAt(spans, offset);
    tier := if found.Some? then found.value.place.tier else Prose;
  }

  /* ------------------------------------------------------------ what a note is */

  function OfTier(notes: seq<Note>, t: Tier): seq<Note> {
    if notes == [] then []
    else OfTier(notes[..|notes| - 1], t) + (if notes[|notes| - 1].tier == t then [notes[|notes| - 1]] else [])
  }

  /** Ids are consecutive within a tier, and there is one note for each hedged paragraph. */
  lemma {:induction false} NumbersAreConsecutive(lines: seq<Line>, n: nat, t: Tier)
    requires n <= |lines| && Hedged(t)
    ensures |OfTier(Notes(lines, n), t)| == CountHedges(lines, n, t)
    ensures forall j :: 0 <= j < |OfTier(Notes(lines, n), t)| ==> OfTier(Notes(lines, n), t)[j].number == j + 1
    ensures |Notes(lines, n)| == CountHedges(lines, n, Inferred) + CountHedges(lines, n, Uncertain)
  {
    hide EffectAt, Before, Offset, NoteOf, Hedges, CountHedges;
    assert CountHedges(lines, 0, t) == 0 && CountHedges(lines, 0, Inferred) == 0 && CountHedges(lines, 0, Uncertain) == 0 by {
      NoneCounted(lines);
    }
    if n > 0 {
      NumbersAreConsecutive(lines, n - 1, t);
      CountStep(lines, n, t);
      var notes := Notes(lines, n - 1);
      assert notes + [] == notes;
      if Hedges(lines, n - 1) {
        var more := notes + [NoteOf(lines, n - 1)];
        assert more[..|more| - 1] == notes;
      }
    }
  }

  lemma NoneCounted(lines: seq<Line>)
    ensures forall t :: CountHedges(lines, 0, t) == 0
  {
  }

  lemma CountStep(lines: seq<Line>, n: nat, t: Tier)
    requires 0 < n <= |lines| && Hedged(t)
    ensures if Hedges(lines, n - 1)
            then CountHedges(lines, n, t) == CountHedges(lines, n - 1, t) + (if NoteOf(lines, n - 1).tier == t then 1 else 0)
                 && (NoteOf(lines, n - 1).tier == t ==> NoteOf(lines, n - 1).number == CountHedges(lines, n - 1, t) + 1)
            else CountHedges(lines, n, t) == CountHedges(lines, n - 1, t)
    ensures CountHedges(lines, n, Inferred) + CountHedges(lines, n, Uncertain)
         == CountHedges(lines, n - 1, Inferred) + CountHedges(lines, n - 1, Uncertain) + (if Hedges(lines, n - 1) then 1 else 0)
  {
    hide Before, Offset, EffectAt;
  }

  /** A note is one paragraph: every line under it has its place, its own first line marks it, and the line after it
      does something. */
  lemma NoteIsOneParagraph(lines: seq<Line>, i: nat, k: nat)
    requires i < |lines| && Hedges(lines, i) && i <= k < NextEffect(lines, i + 1)
    ensures Label(lines, k) == NoteOf(lines, i).place && Hedged(Label(lines, k).tier)
    ensures NoteOf(lines, i).start <= Offset(lines, k) <= NoteOf(lines, i).end || !RealLines(lines)
  {
    hide Offset;
    if k > i {
      NoteIsOneParagraph(lines, i, k - 1);
      assert EffectAt(lines, k) == Nothing;
      LabelIsNext(lines, k - 1);
    }
    if RealLines(lines) {
      OffsetGrows(lines, i, k);
      OffsetGrows(lines, k, NextEffect(lines, i + 1));
    }
  }

  lemma LabelIsNext(lines: seq<Line>, k: nat)
    requires k + 1 < |lines| && EffectAt(lines, k) != Closes && EffectAt(lines, k + 1) == Nothing
    ensures Label(lines, k + 1) == Label(lines, k)
  {
  }

  /* ------------------------------------------------------------ whitespace-squeezed text */

  /** Where character k of the squeezed text comes from. */
  predicate Stands(text: string, out: char, at: nat) {
    at < |text| && (if IsSpace(text[at]) then out == ' ' else out == text[at])
  }

  ghost predicate Mapped(text: string, out: string, idx: seq<nat>, i: nat) {
    && |idx| == |out|
    && (forall k :: 0 <= k < |idx| ==> idx[k] < i && Stands(text, out[k], idx[k]))
    && (forall j, k :: 0 <= j < k < |idx| ==> idx[j] < idx[k])
  }

  /** The squeezed text, when `out` is what the loop has and `rest` is what it has not read. */
  function Glued(out: string, afterSpace: bool, rest: string): string {
    if !afterSpace then out + SqueezeRest(rest)
    else if Squeeze(rest) != "" || out == "" then out + Squeeze(rest)
    else out[..|out| - 1]
  }

  /** The loop's output ends in one space exactly when the last character read was whitespace. */
  predicate Shaped(out: string, afterSpace: bool) {
    && (out == "" ==> afterSpace)
    && (out != "" ==> (afterSpace <==> IsSpace(out[|out| - 1])))
    && (out != "" && afterSpace ==> out[|out| - 1] == ' ' && |out| > 1 && !IsSpace(out[|out| - 2]))
  }

  lemma ReadOne(out: string, afterSpace: bool, rest: string)
    requires rest != "" && Shaped(out, afterSpace)
    ensures IsSpace(rest[0]) && afterSpace ==> Glued(out, afterSpace, rest) == Glued(out, true, rest[1..])
    ensures IsSpace(rest[0]) && !afterSpace ==>
              Glued(out, afterSpace, rest) == Glued(out + " ", true, rest[1..]) && Shaped(out + " ", true)
    ensures !IsSpace(rest[0]) ==>
              Glued(out, afterSpace, rest) == Glued(out + [rest[0]], false, rest[1..]) && Shaped(out + [rest[0]], false)
  {
    assert IsSpace(' ');
    if IsSpace(rest[0]) && !afterSpace {
      assert (out + " ")[..|out|] == out;
      assert out + (" " + Squeeze(rest)) == (out + " ") + Squeeze(rest);
      assert out + "" == out;
    }
    if !IsSpace(rest[0]) {
      assert out + ([rest[0]] + SqueezeRest(rest[1..])) == (out + [rest[0]]) + SqueezeRest(rest[1..]);
    }
  }

  /** `_normalize_with_map`: the squeeze, with a strictly increasing map to the characters it was made of. */
  method NormalizeWithMap(text: string) returns (out: string, idx: seq<nat>)
    ensures out == Squeeze(text) && Mapped(text, out, idx, |text|)
  {
    hide Squeeze, SqueezeRest, IsSpace, Glued, Shaped;
    out, idx := "", [];
    var afterSpace := true;
    GluedAtStart(text);
    for i := 0 to |text|
      invariant Mapped(text, out, idx, i) && Shaped(out, afterSpace)
      invariant Glued(out, afterSpace, text[i..]) == Squeeze(text)
    {
      ReadOne(out, afterSpace, text[i..]);
      assert text[i..][1..] == text[i + 1..];
      if IsSpace(text[i]) {
        if !afterSpace {
          out, idx, afterSpace := out + " ", idx + [i], true;
        }
      } else {
        out, idx, afterSpace := out + [text[i]], idx + [i], false;
      }
    }
    assert text[|text|..] == "";
    TailIsSpace(out, afterSpace);
    ghost var whole := out;
    while out != "" && out[|out| - 1] == ' '
      invariant Mapped(text, out, idx, |text|)
      invariant out == whole || (afterSpace && whole != "" && out == whole[..|whole| - 1])
      decreases |out|
    {
      out, idx := out[..|out| - 1], idx[..|idx| - 1];
    }
  }

  lemma GluedAtStart(text: string)
    ensures Glued("", true, text[0..]) == Squeeze(text) && Shaped("", true)
  {
    assert text[0..] == text && "" + Squeeze(text) == Squeeze(text);
  }

  /** At the end of the text at most one space is left to pop, and popping it gives the squeeze. */
  lemma TailIsSpace(out: string, afterSpace: bool)
    requires Shaped(out, afterSpace)
    ensures Glued(out, afterSpace, "") == if afterSpace && out != "" then out[..|out| - 1] else out
    ensures afterSpace && out != "" ==> out[|out| - 1] == ' ' && |out| > 1 && out[|out| - 2] != ' '
    ensures !afterSpace ==> out != "" && out[|out| - 1] != ' '
  {
    assert IsSpace(' ');
    assert out + "" == out;
  }

  /* ------------------------------------------------------------ where a quote sits */

  predicate Matches(text: string, q: string, i: nat) {
    i + |q| <= |text| && text[i..i + |q|] == q
  }

  /** `text.find(q)`. */
  method Find(text: string, q: string) returns (at: Option<nat>)
    ensures at.Some? ==> Matches(text, q, at.value) && forall i: nat :: i < at.value ==> !Matches(text, q, i)
    ensures at == None ==> forall i: nat :: !Matches(text, q, i)
  {
    var n := 0;
    while n + |q| <= |text|
      invariant forall i: nat :: i < n ==> !Matches(text, q, i)
      decreases |text| - n
    {
      if text[n..n + |q|] == q {
        return Some(n);
      }
      n := n + 1;
    }
    at := None;
  }

  function Folded(fold: char -> char, s: string): (t: string)
    ensures |t| == |s| && forall i :: 0 <= i < |s| ==> t[i] == fold(s[i])
  {
    seq(|s|, i requires 0 <= i < |s| => fold(s[i]))
  }

  ghost predicate FirstMatch(text: string, q: string, at: nat) {
    Matches(text, q, at) && forall i: nat :: i < at ==> !Matches(text, q, i)
  }

  /** Where a quote is found: its first occurrence, or the first one in another case when there is none. */
  ghost predicate FoundAt(text: string, q: string, fold: char -> char, at: Option<nat>) {
    if q == "" then at == None
    else match at
      case Some(i) => FirstMatch(text, q, i) || ((forall j: nat :: !Matches(text, q, j)) && FirstMatch(Folded(fold, text), Folded(fold, q), i))
      case None => (forall j: nat :: !Matches(text, q, j)) && forall j: nat :: !Matches(Folded(fold, text), Folded(fold, q), j)
  }

  /** What the span of an offset must be: the one graded there, at the place of the offset's line, or none where that
      place is not graded at all. */
  ghost predicate IsSpanOf(lines: seq<Line>, found: Option<Span>, offset: nat) {
    && (found.Some? ==> found.value.start <= offset < found.value.end)
    && forall k: nat :: k < |lines| && Offset(lines, k) <= offset < Offset(lines, k + 1) ==>
          (found.Some? <==> Label(lines, k).tier != Prose || Label(lines, k).block != "")
          && (found.Some? ==> found.value.place == Label(lines, k))
  }

  lemma SpanIsOf(lines: seq<Line>, spans: seq<Span>, all: seq<Span>, cuts: seq<nat>, found: Option<Span>, offset: nat)
    requires RealLines(lines) && Tiles(lines, all, cuts, |lines|) && spans == Graded(all)
    requires found.Some? ==> found.value in spans && found.value.start <= offset < found.value.end
    requires found == None ==> forall s :: s in spans ==> !(s.start <= offset < s.end)
    ensures IsSpanOf(lines, found, offset)
  {
    hide Label, Offset, Tiles, Graded;
    forall k: nat | k < |lines| && Offset(lines, k) <= offset < Offset(lines, k + 1)
      ensures found.Some? <==> Label(lines, k).tier != Prose || Label(lines, k).block != ""
      ensures found.Some? ==> found.value.place == Label(lines, k)
    {
      SpanOfLine(lines, all, cuts, k, offset);
    }
  }

  /** The span of the source character that the quote's first character stands for, or none when it does not occur. */
  ghost predicate Located(text: string, lines: seq<Line>, quote: string, fold: char -> char, found: Option<Span>) {
    exists at: Option<nat>, idx: seq<nat> ::
      && FoundAt(Squeeze(text), Squeeze(quote), fold, at) && Mapped(text, Squeeze(text), idx, |text|)
      && (at == None ==> found == None)
      && (at.Some? ==> at.value < |idx| && IsSpanOf(lines, found, idx[at.value]))
  }

  /** `locate`, on what `annotate` returned. */
  method Locate(text: string, lines: seq<Line>, spans: seq<Span>, quote: string, fold: char -> char, ghost all: seq<Span>, ghost cuts: seq<nat>)
    returns (found: Option<Span>)
    requires RealLines(lines) && Tiles(lines, all, cuts, |lines|) && spans == Graded(all)
    ensures Located(text, lines, quote, fold, found)
  {
    hide Squeeze, Tiles, Graded, IsSpanOf, Mapped, Stands, Label, Offset, IsSpace;
    var norm, idx := NormalizeWithMap(text);
    MapIsFull(text, norm, idx);
    var q := Squeeze(quote);
    if q == "" {
      assert FoundAt(norm, q, fold, None);
      return None;
    }
    var at := Find(norm, q);
    if at == None {
      at := Find(Folded(fold, norm), Folded(fold, q));
      if at == None {
        assert FoundAt(norm, q, fold, None);
        return None;
      }
    }
    assert FoundAt(norm, q, fold, at);
    found := SpanAt(spans, idx[at.value]);
    SpanIsOf(lines, spans, all, cuts, found, idx[at.value]);
  }

  lemma MapIsFull(text: string, out: string, idx: seq<nat>)
    requires Mapped(text, out, idx, |text|)
    ensures |idx| == |out|
  {
  }
}
