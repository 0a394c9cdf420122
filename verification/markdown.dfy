/**
 * `itineraryToMarkdown`: the itinerary as a Markdown document, one line
 * list joined with newlines.
 */
module Markdown {
  import opened Wrappers
  import Text
  import Seqs
  import opened Itineraries
  import opened Catalog

  /** The `poiById` map, which may be absent. */
  type PoiIndex = Option<map<string, Poi>>

  /** `poi?.name || s.poi_id`. */
  function DisplayName(poiId: string, poiById: PoiIndex): (name: string)
    ensures poiById.Some? && poiId in poiById.value && poiById.value[poiId].name != [] ==>
      name == poiById.value[poiId].name
    ensures !(poiById.Some? && poiId in poiById.value && poiById.value[poiId].name != []) ==> name == poiId
  {
    if poiById.Some? && poiId in poiById.value && poiById.value[poiId].name != [] then poiById.value[poiId].name
    else poiId
  }

  function Heading(title: string): string {
    "# " + (if title != [] then title else "Itinerary")
  }

  /** The lines of the stop at position `idx` of its day. */
  function StopLines(s: Stop, idx: nat, poiById: PoiIndex): seq<string> {
    [Text.NatText(idx + 1) + ". **" + DisplayName(s.poiId, poiById) + "** — _" + s.timeBlock + "_, "
     + Text.IntText(s.durationMin) + " min",
     "   - " + s.labelText, "   - Why: " + s.why]
    + (if s.tips.Some? && s.tips.value != [] then ["   - Tips: " + Text.JoinWith(s.tips.value, " | ")] else [])
  }

  /**
   * A stop yields three lines, or four with tips: its 1-based number with
   * the displayed name, time block and duration, then its label, then why.
   */
  lemma StopLinesShape(s: Stop, idx: nat, poiById: PoiIndex)
    ensures var r := StopLines(s, idx, poiById);
      && |r| == (if s.tips.Some? && s.tips.value != [] then 4 else 3)
      && |Text.NatText(idx + 1)| + 2 <= |r[0]| && r[0][..|Text.NatText(idx + 1)| + 2] == Text.NatText(idx + 1) + ". "
      && r[0] == Text.NatText(idx + 1) + ". **" + DisplayName(s.poiId, poiById) + "** — _" + s.timeBlock + "_, "
                 + Text.IntText(s.durationMin) + " min"
      && r[1] == "   - " + s.labelText
      && r[2] == "   - Why: " + s.why
  {
    var number := Text.NatText(idx + 1);
    var first := number + ". **" + DisplayName(s.poiId, poiById) + "** — _" + s.timeBlock + "_, "
                 + Text.IntText(s.durationMin) + " min";
    assert StopLines(s, idx, poiById)[0] == first;
    assert first[..|number| + 2] == number + ". ";
  }

  function StopBlocks(d: Day, poiById: PoiIndex): seq<seq<string>> {
    seq(|d.stops|, idx requires 0 <= idx < |d.stops| => StopLines(d.stops[idx], idx, poiById))
  }

  /** `## label`, a blank line, the stops' lines, a blank line. */
  function DayLines(d: Day, poiById: PoiIndex): (r: seq<string>)
    ensures |r| >= 3 && r[0] == "## " + d.labelText && r[1] == "" && r[|r| - 1] == ""
  {
    ["## " + d.labelText, ""] + Seqs.Concat(StopBlocks(d, poiById)) + [""]
  }

  function DayBlocks(it: Itinerary, poiById: PoiIndex): seq<seq<string>> {
    seq(|it.days|, i requires 0 <= i < |it.days| => DayLines(it.days[i], poiById))
  }

  function Lines(it: Itinerary, poiById: PoiIndex): seq<string> {
    [Heading(it.title), ""] + Seqs.Concat(DayBlocks(it, poiById))
  }

  /** `itineraryToMarkdown(itinerary, poiById)`. */
  function ToMarkdown(it: Itinerary, poiById: PoiIndex): (md: string)
    ensures md == [] <==> it.days == []
    ensures it.days != [] ==> |Heading(it.title)| <= |md| && md[..|Heading(it.title)|] == Heading(it.title)
    ensures it.days != [] ==>
      |Heading(it.title)| + 2 <= |md| && md[..|Heading(it.title)| + 2] == Heading(it.title) + "\n\n"
  {
    if it.days == [] then []
    else
      var lines := Lines(it, poiById);
      JoinStartsWithFirst(lines, "\n");
      var blocks := DayBlocks(it, poiById);
      assert Seqs.Concat(blocks) == blocks[0] + Seqs.Concat(blocks[1..]);
      JoinOpens(Heading(it.title), Seqs.Concat(blocks));
      Text.JoinWith(lines, "\n")
  }

  /** The title line and the blank line after it open the joined document. */
  lemma JoinOpens(h: string, rest: seq<string>)
    requires rest != []
    ensures Text.JoinWith([h, ""] + rest, "\n") == h + "\n\n" + Text.JoinWith(rest, "\n")
  {
    assert [h, ""] + rest == [h] + ([""] + rest);
    Text.JoinCons(h, [""] + rest, "\n");
    Text.JoinCons("", rest, "\n");
  }

  /** A join begins with its first part. */
  lemma JoinStartsWithFirst(parts: seq<string>, sep: string)
    requires parts != []
    ensures |parts[0]| <= |Text.JoinWith(parts, sep)| && Text.JoinWith(parts, sep)[..|parts[0]|] == parts[0]
  {
    if |parts| > 1 {
      assert Text.JoinWith(parts, sep) == parts[0] + (sep + Text.JoinWith(parts[1..], sep));
    }
  }

  /**
   * The document is its lines: when no title, label, name or text contains
   * a newline, splitting the output at newlines gives the line list back.
   */
  lemma MarkdownLinesRecoverable(it: Itinerary, poiById: PoiIndex)
    requires it.days != []
    requires forall k :: 0 <= k < |Lines(it, poiById)| ==> '\n' !in Lines(it, poiById)[k]
    ensures Text.Split(ToMarkdown(it, poiById), '\n') == Lines(it, poiById)
  {
    Text.JoinThenSplit(Lines(it, poiById), '\n');
  }

  /**
   * Day `i`'s block sits in the line list right after the heading, its blank
   * line and the blocks of the days before it, in input order.
   */
  lemma DayBlockInPlace(it: Itinerary, poiById: PoiIndex, i: nat)
    requires i < |it.days|
    ensures Seqs.SliceIs(Lines(it, poiById), 2 + |Seqs.Concat(DayBlocks(it, poiById)[..i])|, DayLines(it.days[i], poiById))
  {
    var blocks := DayBlocks(it, poiById);
    Seqs.BlockAfterHead([Heading(it.title), ""], blocks, i);
    assert blocks[i] == DayLines(it.days[i], poiById);
  }

  /**
   * Within a day, stop `idx`'s lines follow the day heading, the blank line
   * and the earlier stops' lines, and its first line starts with `idx + 1`:
   * numbering restarts at 1 for every day.
   */
  lemma StopBlockInPlace(d: Day, poiById: PoiIndex, idx: nat)
    requires idx < |d.stops|
    ensures Seqs.SliceIs(DayLines(d, poiById), 2 + |Seqs.Concat(StopBlocks(d, poiById)[..idx])|, StopLines(d.stops[idx], idx, poiById))
  {
    var blocks := StopBlocks(d, poiById);
    Seqs.BlockInFrame(["## " + d.labelText, ""], blocks, [""], idx);
    assert blocks[idx] == StopLines(d.stops[idx], idx, poiById);
  }

  /** A stop contributes a fourth line exactly when it has tips, joined with ` | `. */
  lemma TipsLine(s: Stop, idx: nat, poiById: PoiIndex)
    ensures |StopLines(s, idx, poiById)| == 4 <==> s.tips.Some? && s.tips.value != []
    ensures |StopLines(s, idx, poiById)| == 4 ==>
      StopLines(s, idx, poiById)[3] == "   - Tips: " + Text.JoinWith(s.tips.value, " | ")
  {
  }
}
