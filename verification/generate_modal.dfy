/**
 * The itinerary request form: the comma-separated interests parser and the
 * payload it submits to the endpoint.
 */
module GenerateModal {
  import opened Wrappers
  import opened JsValue
  import Text
  import PlanRequest

  /** `pieces.map((s) => s.trim()).filter(Boolean)`. */
  function TrimmedNonEmpty(pieces: seq<string>): (r: seq<string>)
    ensures |r| <= |pieces|
    ensures forall i :: 0 <= i < |r| ==> r[i] != [] && !Text.IsSpace(r[i][0]) && !Text.IsSpace(r[i][|r[i]| - 1])
  {
    if pieces == [] then []
    else
      var t := Text.Trim(pieces[0]);
      (if t != [] then [t] else []) + TrimmedNonEmpty(pieces[1..])
  }

  /** Trimming never adds a character. */
  lemma TrimWithin(s: string, c: char)
    requires c !in s
    ensures c !in Text.Trim(s)
  {
    var a := Text.LeadingSpaces(s);
    var r := Text.Trim(s);
    forall k | 0 <= k < |r| ensures r[k] != c {
      assert r[k] == s[a + k];
    }
  }

  lemma {:induction false} TrimmedNonEmptyAvoids(pieces: seq<string>, c: char)
    requires forall i :: 0 <= i < |pieces| ==> c !in pieces[i]
    ensures forall i :: 0 <= i < |TrimmedNonEmpty(pieces)| ==> c !in TrimmedNonEmpty(pieces)[i]
  {
    if pieces != [] {
      TrimWithin(pieces[0], c);
      assert forall i :: 0 <= i < |pieces[1..]| ==> pieces[1..][i] == pieces[i + 1];
      TrimmedNonEmptyAvoids(pieces[1..], c);
    }
  }

  /**
   * `parsedInterests`: the comma-separated entries, trimmed, with empty
   * ones dropped.
   */
  function ParsedInterests(text: string): (r: seq<string>)
    ensures |r| <= Text.Count(text, ',') + 1
    ensures forall i :: 0 <= i < |r| ==> r[i] != [] && ',' !in r[i]
    ensures forall i :: 0 <= i < |r| ==> !Text.IsSpace(r[i][0]) && !Text.IsSpace(r[i][|r[i]| - 1])
  {
    var pieces := Text.Split(text, ',');
    Text.SplitFacts(text, ',');
    TrimmedNonEmptyAvoids(pieces, ',');
    TrimmedNonEmpty(pieces)
  }

  lemma {:induction false} TrimmedNonEmptyKeeps(entries: seq<string>)
    requires forall i :: 0 <= i < |entries| ==> entries[i] != [] && !Text.IsSpace(entries[i][0]) && !Text.IsSpace(entries[i][|entries[i]| - 1])
    ensures TrimmedNonEmpty(entries) == entries
  {
    if entries != [] {
      Text.TrimUntrimmed(entries[0]);
      assert forall i :: 0 <= i < |entries[1..]| ==> entries[1..][i] == entries[i + 1];
      TrimmedNonEmptyKeeps(entries[1..]);
    }
  }

  /**
   * Entries come back in their order: writing non-empty, trimmed,
   * comma-free entries separated by commas and parsing gives them back.
   */
  lemma InterestsRoundTrip(entries: seq<string>)
    requires entries != []
    requires forall i :: 0 <= i < |entries| ==> entries[i] != [] && ',' !in entries[i]
    requires forall i :: 0 <= i < |entries| ==> !Text.IsSpace(entries[i][0]) && !Text.IsSpace(entries[i][|entries[i]| - 1])
    ensures ParsedInterests(Text.JoinWith(entries, ",")) == entries
  {
    Text.JoinThenSplit(entries, ',');
    TrimmedNonEmptyKeeps(entries);
  }

  /**
   * The entries a reader of the form would list: every entry that is not
   * blank, with its surrounding white space removed, in order.
   */
  function NonBlankEntries(entries: seq<string>): seq<string> {
    if entries == [] then []
    else
      var earlier := NonBlankEntries(entries[..|entries| - 1]);
      var last := entries[|entries| - 1];
      if Text.AllSpace(last) then earlier else earlier + [Text.Trim(last)]
  }

  /** Trimming leaves nothing exactly when the text is blank. */
  lemma TrimEmptyIffBlank(s: string)
    ensures Text.Trim(s) == [] <==> Text.AllSpace(s)
  {
    var a := Text.LeadingSpaces(s);
    if Text.Trim(s) == [] {
      assert s[a + 0..] == s[a..];
      assert a == |s|;
      assert s[..a] == s;
    }
    if Text.AllSpace(s) {
      assert a == |s|;
    }
  }

  lemma {:induction false} TrimmedNonEmptyAppend(a: seq<string>, b: seq<string>)
    ensures TrimmedNonEmpty(a + b) == TrimmedNonEmpty(a) + TrimmedNonEmpty(b)
  {
    if a == [] {
      assert a + b == b;
    } else {
      TrimmedNonEmptyAppend(a[1..], b);
      TrimmedNonEmptyCons(a, b);
      Regroup(TrimmedNonEmpty(a + b), TrimmedNonEmpty([a[0]]), TrimmedNonEmpty(a[1..] + b), TrimmedNonEmpty(a),
              TrimmedNonEmpty(a[1..]), TrimmedNonEmpty(b));
    }
  }

  /** The first entry's contribution comes first. */
  lemma TrimmedNonEmptyCons(a: seq<string>, b: seq<string>)
    requires a != []
    ensures TrimmedNonEmpty(a + b) == TrimmedNonEmpty([a[0]]) + TrimmedNonEmpty(a[1..] + b)
    ensures TrimmedNonEmpty(a) == TrimmedNonEmpty([a[0]]) + TrimmedNonEmpty(a[1..])
  {
    TrimmedNonEmptyHead(a + b);
    assert (a + b)[0] == a[0] && (a + b)[1..] == a[1..] + b;
    TrimmedNonEmptyHead(a);
  }

  lemma TrimmedNonEmptyHead(a: seq<string>)
    requires a != []
    ensures TrimmedNonEmpty(a) == TrimmedNonEmpty([a[0]]) + TrimmedNonEmpty(a[1..])
  {
    assert [a[0]][1..] == [];
  }

  /** The sequence algebra of `TrimmedNonEmptyAppend`. */
  lemma Regroup<T>(ab: seq<T>, h: seq<T>, tb: seq<T>, x: seq<T>, t: seq<T>, y: seq<T>)
    requires ab == h + tb && tb == t + y && x == h + t
    ensures ab == x + y
  {
  }

  /** Trim-then-drop-empty, as the form computes it, lists the non-blank entries trimmed. */
  lemma {:induction false} TrimmedNonEmptyIsNonBlank(entries: seq<string>)
    ensures TrimmedNonEmpty(entries) == NonBlankEntries(entries)
  {
    if entries != [] {
      var init := entries[..|entries| - 1];
      var last := entries[|entries| - 1];
      assert entries == init + [last];
      TrimmedNonEmptyIsNonBlank(init);
      TrimmedNonEmptyAppend(init, [last]);
      TrimEmptyIffBlank(last);
      assert [last][1..] == [];
    }
  }

  /** The parsed interests of any text are its non-blank comma-separated entries, trimmed, in order. */
  lemma ParsedInterestsSpec(text: string)
    ensures ParsedInterests(text) == NonBlankEntries(Text.Split(text, ','))
  {
    TrimmedNonEmptyIsNonBlank(Text.Split(text, ','));
  }

  /**
   * Writing entries without commas separated by commas, each with any
   * white space around it or blank, and parsing gives back the non-blank
   * entries, trimmed, in order.
   */
  lemma ParsedJoinedEntries(entries: seq<string>)
    requires forall i :: 0 <= i < |entries| ==> ',' !in entries[i]
    ensures ParsedInterests(Text.JoinWith(entries, ",")) == NonBlankEntries(entries)
  {
    ParsedInterestsSpec(Text.JoinWith(entries, ","));
    if entries == [] {
      assert Text.Split([], ',') == [[]];
      assert Text.AllSpace([]);
      assert NonBlankEntries([[]]) == [];
    } else {
      Text.JoinThenSplit(entries, ',');
    }
  }

  /** The form's state; `days` and `maxStops` are already `Number(...)` of the inputs. */
  datatype Form = Form(days: Value, maxStops: Value, pace: string, startArea: string, interests: string)

  /** `Number(x)` is a finite number, `NaN` or an infinity. */
  predicate NumberResult(v: Value) {
    v.Num? || v.NaN? || v.Infinity?
  }

  /** The body `onGenerate` receives. */
  function SubmitPayload(f: Form): (v: Value)
    ensures v.Obj? && |v.fields| == 5
  {
    Obj([
      ("days", f.days),
      ("max_stops_per_day", f.maxStops),
      ("pace", Str(f.pace)),
      ("start_area", Str(f.startArea)),
      ("interests", Strings(ParsedInterests(f.interests)))])
  }

  /** The keys of a property list, in order. */
  function Keys(fields: seq<(string, Value)>): (ks: seq<string>)
    ensures |ks| == |fields|
  {
    seq(|fields|, i requires 0 <= i < |fields| => fields[i].0)
  }

  const PAYLOAD_KEYS: seq<string> := ["days", "max_stops_per_day", "pace", "start_area", "interests"]

  /** The payload carries exactly the five form fields, and never an exclusion list. */
  lemma PayloadKeysExact(f: Form)
    ensures Keys(SubmitPayload(f).fields) == PAYLOAD_KEYS
    ensures Get(SubmitPayload(f), "exclude_poi_ids") == Undefined
  {
    var fs := SubmitPayload(f).fields;
    assert Keys(fs) == PAYLOAD_KEYS;
    forall i | 0 <= i < |fs| ensures fs[i].0 != "exclude_poi_ids" {
      assert fs[i].0 == PAYLOAD_KEYS[i];
      assert PAYLOAD_KEYS[i][0] != 'e';
    }
  }
  /**
   * The endpoint accepts the form's payload exactly when the two numbers
   * are integers in range, and then excludes nothing and receives the
   * parsed interests, the pace and the start area as entered.
   */
  lemma PayloadAccepted(f: Form)
    requires NumberResult(f.days) && NumberResult(f.maxStops)
    ensures var r := PlanRequest.Validate(SubmitPayload(f));
      && (r.Ok? <==> PlanRequest.IntegerIn(f.days, 1, 7) && PlanRequest.IntegerIn(f.maxStops, 2, 8))
      && (r.Ok? ==> r.value.excludePoiIds == Arr([])
                    && r.value.pace == Str(f.pace)
                    && r.value.interests == Strings(ParsedInterests(f.interests))
                    && r.value.startArea == Str(f.startArea))
  {
    PayloadGets(f);
    PayloadKeysExact(f);
    AcceptedBody(SubmitPayload(f), f);
  }

  /** `PayloadAccepted` for any object body holding the form's values under their keys. */
  lemma AcceptedBody(v: Value, f: Form)
    requires v.Obj? && NumberResult(f.days) && NumberResult(f.maxStops)
    requires Get(v, "days") == f.days && Get(v, "max_stops_per_day") == f.maxStops
    requires Get(v, "pace") == Str(f.pace) && Get(v, "start_area") == Str(f.startArea)
    requires Get(v, "interests") == Strings(ParsedInterests(f.interests))
    requires Get(v, "exclude_poi_ids") == Undefined
    ensures var r := PlanRequest.Validate(v);
      && (r.Ok? <==> PlanRequest.IntegerIn(f.days, 1, 7) && PlanRequest.IntegerIn(f.maxStops, 2, 8))
      && (r.Ok? ==> r.value.excludePoiIds == Arr([])
                    && r.value.pace == Str(f.pace)
                    && r.value.interests == Strings(ParsedInterests(f.interests))
                    && r.value.startArea == Str(f.startArea))
  {
    assert PlanRequest.DaysField(v) == f.days;
    assert PlanRequest.MaxStopsField(v) == f.maxStops;
  }

  /** Each form field is read back from the payload under its key. */
  lemma PayloadGets(f: Form)
    ensures var v := SubmitPayload(f);
      && Get(v, "days") == f.days
      && Get(v, "max_stops_per_day") == f.maxStops
      && Get(v, "pace") == Str(f.pace)
      && Get(v, "start_area") == Str(f.startArea)
      && Get(v, "interests") == Strings(ParsedInterests(f.interests))
  {
    var fs := SubmitPayload(f).fields;
    assert Keys(fs) == PAYLOAD_KEYS;
    DistinctKeysRead(fs);
    assert PAYLOAD_KEYS[0] == "days" && PAYLOAD_KEYS[1] == "max_stops_per_day" && PAYLOAD_KEYS[2] == "pace";
    assert PAYLOAD_KEYS[3] == "start_area" && PAYLOAD_KEYS[4] == "interests";
  }

  /** In a property list keyed by the payload keys, each key reads its own field. */
  lemma DistinctKeysRead(fs: seq<(string, Value)>)
    requires Keys(fs) == PAYLOAD_KEYS
    ensures forall i :: 0 <= i < 5 ==> Lookup(fs, PAYLOAD_KEYS[i]) == fs[i].1
  {
    forall i | 0 <= i < 5 ensures Lookup(fs, PAYLOAD_KEYS[i]) == fs[i].1 {
      assert fs[i].0 == Keys(fs)[i];
      forall j | 0 <= j < i ensures fs[j].0 != PAYLOAD_KEYS[i] {
        assert fs[j].0 == Keys(fs)[j];
        assert PAYLOAD_KEYS[j][0] != PAYLOAD_KEYS[i][0];
      }
      LookupAt(fs, i, PAYLOAD_KEYS[i]);
    }
  }
}
