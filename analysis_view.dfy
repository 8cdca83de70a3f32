// The call-analysis dashboard the wizard shows at its last step: how it
// labels questions and answers, classifies the call's outcome, picks the
// outcome entries to show, and renders transcript items.

module AnalysisView {
  import opened Text
  import opened Json
  import opened Outcome

  // ---------------------------------------------------------------------
  // Questions

  const QuestionLabels: map<string, string> := map[
    "if_the_user_promised_to_pay_then_what_was_the_amount" := "Payment Amount",
    "if_the_user_promised_to_pay_then_what_was_the_date_in_yyyymmdd_hhmm_format" := "Payment Date",
    "does_the_user_promised_to_pay" := "Payment Promise",
    "what_was_the_summary_of_the_conversation" := "Call Summary"
  ]

  /** `s.replace(/^(what|if|does)\s/, "")`: at most one leading word goes. */
  function StripLeadingWord(s: string): (r: string)
    ensures r == s || exists w :: w in ["what", "if", "does"] && LeadsWith(s, w) && r == s[|w| + 1..]
    ensures |r| <= |s| && r == s[|s| - |r|..]
    ensures r == s <==> !LeadsWith(s, "what") && !LeadsWith(s, "if") && !LeadsWith(s, "does")
  {
    if LeadsWith(s, "what") then (assert "what" in ["what", "if", "does"]; s[5..])
    else if LeadsWith(s, "if") then (assert "if" in ["what", "if", "does"]; s[3..])
    else if LeadsWith(s, "does") then (assert "does" in ["what", "if", "does"]; s[5..])
    else s
  }

  /** The dashboard's label for an analysis question code. */
  function FormatQuestion(code: string): string {
    if code in QuestionLabels then QuestionLabels[code]
    else CapitalizeWords(StripLeadingWord(Spaced(code)))
  }

  /** A code without a fixed label is shown as its words: underscores
      become spaces, one leading "what", "if" or "does" goes, and exactly
      the first letter of each word is upper-cased, so no underscore is
      left. */
  lemma FormatQuestionUnmapped(code: string)
    requires code !in QuestionLabels
    ensures WordStartsUpper(StripLeadingWord(Spaced(code)), FormatQuestion(code))
    ensures '_' !in FormatQuestion(code)
  {
    var sp := Spaced(code);
    var s := StripLeadingWord(sp);
    var c := FormatQuestion(code);
    assert c == CapitalizeWords(s);
    hide FormatQuestion, Spaced, StripLeadingWord, LeadsWith, CapitalizeWords;
    CapitalizeWordsAt(s);
    TailKeepsUnderscoresOut(sp, s);
    UpperKeepsUnderscoresOut(s, c);
  }

  lemma TailKeepsUnderscoresOut(sp: string, s: string)
    requires '_' !in sp && |s| <= |sp| && s == sp[|sp| - |s|..]
    ensures '_' !in s
  {
    forall i | 0 <= i < |s| ensures s[i] != '_' {
      assert s[i] == sp[|sp| - |s| + i];
    }
  }

  lemma UpperKeepsUnderscoresOut(s: string, c: string)
    requires WordStartsUpper(s, c) && '_' !in s
    ensures '_' !in c
  {
    forall i | 0 <= i < |c| ensures c[i] != '_' {
      assert s[i] in s;
      CharAt(s, c, i);
    }
  }

  lemma CharAt(s: string, c: string, i: int)
    requires WordStartsUpper(s, c) && 0 <= i < |c|
    ensures c[i] == AsciiUpper(s[i]) || c[i] == s[i]
  {
  }

  /** A code without a label whose spaced-out form is one of the words
      "what", "if" or "does", a space and `rest` is shown as the words of
      `rest`, capitalised: the word is cut once, and whatever `rest`
      starts with stays. */
  lemma FormatQuestionCutsWord(code: string, w: string, rest: string)
    requires code !in QuestionLabels
    requires w in ["what", "if", "does"] && Spaced(code) == w + " " + rest
    ensures FormatQuestion(code) == CapitalizeWords(rest)
  {
    StripLeadingWordCut(w, rest);
  }

  lemma StripLeadingWordCut(w: string, rest: string)
    requires w in ["what", "if", "does"]
    ensures StripLeadingWord(w + " " + rest) == rest
  {
    var s := w + " " + rest;
    StripWordCut(w, rest);
    if w != "what" {
      StripWordSkip(s, "what");
    }
    if w == "does" {
      StripWordSkip(s, "if");
    }
  }

  /** A code without a label whose spaced-out form starts with none of
      the cut words is shown as all of its words, capitalised. */
  lemma FormatQuestionUncut(code: string)
    requires code !in QuestionLabels
    requires var s := Spaced(code); !LeadsWith(s, "what") && !LeadsWith(s, "if") && !LeadsWith(s, "does")
    ensures FormatQuestion(code) == CapitalizeWords(Spaced(code))
  {
  }

  // ---------------------------------------------------------------------
  // Answers

  /** The dashboard's text for an answer. */
  function FormatAnswer(v: string): string {
    if v == "True" then "Yes"
    else if v == "False" then "No"
    else if v == "[]" || v == "0.0" then "Not specified"
    else if IsCompactStamp(v) then RenderStamp(v, " at ")
    else v
  }

  /** An answer is shown unchanged exactly when it is none of the four
      fixed words and no compact date; a compact date is shown as a date
      from which it can be read back. */
  lemma FormatAnswerSpec(v: string)
    ensures FormatAnswer(v) == v <==> v !in {"True", "False", "[]", "0.0"} && !IsCompactStamp(v)
    ensures IsCompactStamp(v) ==> UnrenderStamp(FormatAnswer(v), " at ") == v
  {
    if IsCompactStamp(v) {
      RenderedIsNotStamp(v, " at ");
      StampRoundTrip(v, " at ");
      assert v != "True" && v != "False" && v != "[]" && v != "0.0";
    }
  }

  // ---------------------------------------------------------------------
  // Outcome status

  datatype Status = Pending | Success | Failed | Unclear

  const PromiseKey: string := "does_the_user_promised_to_pay"

  /** The dashboard's classification of the analysis: whether the borrower
      promised to pay. The dashboard computes it but its markup never shows it. */
  function OutcomeStatus(outcome: Json): (r: Status)
    ensures r == Pending <==> !Truthy(outcome)
    ensures r == Success <==> Truthy(outcome) && Property(outcome, PromiseKey) == Some(JString("True"))
    ensures r == Failed <==> Truthy(outcome) && Property(outcome, PromiseKey) == Some(JString("False"))
    ensures r == Unclear <==>
      Truthy(outcome) && Property(outcome, PromiseKey) !in {Some(JString("True")), Some(JString("False"))}
  {
    if !Truthy(outcome) then Pending
    else
      var promised := Property(outcome, PromiseKey);
      if promised == Some(JString("True")) then Success
      else if promised == Some(JString("False")) then Failed
      else Unclear
  }

  // ---------------------------------------------------------------------
  // Outcome entries

  /** An outcome value is shown when it is truthy and neither "[]" nor "0.0". */
  predicate Shown(v: Json) {
    Truthy(v) && v != JString("[]") && v != JString("0.0")
  }

  /** The filter over `Object.entries(outcomeData)`. */
  function VisibleOutcomes(entries: seq<(string, Json)>): seq<(string, Json)> {
    if entries == [] then []
    else (if Shown(entries[0].1) then [entries[0]] else []) + VisibleOutcomes(entries[1..])
  }

  /** The positions, from `k` on, of the entries whose value is shown. */
  function ShownFrom(entries: seq<(string, Json)>, k: nat): (idx: seq<nat>)
    ensures forall i :: 0 <= i < |idx| ==> k <= idx[i] < |entries|
    decreases |entries| - k
  {
    if k >= |entries| then []
    else (if Shown(entries[k].1) then [k] else []) + ShownFrom(entries, k + 1)
  }

  /** Those positions are exactly the shown ones, in increasing order. */
  lemma {:induction false} ShownFromSpec(entries: seq<(string, Json)>, k: nat)
    ensures forall i :: 0 <= i < |ShownFrom(entries, k)| ==> Shown(entries[ShownFrom(entries, k)[i]].1)
    ensures forall i, j :: 0 <= i < j < |ShownFrom(entries, k)| ==> ShownFrom(entries, k)[i] < ShownFrom(entries, k)[j]
    ensures forall j :: k <= j < |entries| && Shown(entries[j].1) ==> j in ShownFrom(entries, k)
    decreases |entries| - k
  {
    if k < |entries| {
      ShownFromSpec(entries, k + 1);
    }
  }

  /** The entries at the positions `idx`, in that order. */
  function Pick(entries: seq<(string, Json)>, idx: seq<nat>): seq<(string, Json)>
    requires forall i :: 0 <= i < |idx| ==> idx[i] < |entries|
  {
    if idx == [] then [] else [entries[idx[0]]] + Pick(entries, idx[1..])
  }

  /** The dashboard shows exactly the entries whose value is shown, in
      their original order. */
  lemma VisibleOutcomesInOrder(entries: seq<(string, Json)>)
    ensures VisibleOutcomes(entries) == Pick(entries, ShownFrom(entries, 0))
  {
    VisibleFrom(entries, 0);
    assert entries[0..] == entries;
  }

  lemma {:induction false} VisibleFrom(entries: seq<(string, Json)>, k: nat)
    requires k <= |entries|
    ensures VisibleOutcomes(entries[k..]) == Pick(entries, ShownFrom(entries, k))
    decreases |entries| - k
  {
    if k < |entries| {
      VisibleFrom(entries, k + 1);
      var rest := ShownFrom(entries, k + 1);
      assert entries[k..][1..] == entries[k + 1..];
      assert entries[k..][0] == entries[k];
      if Shown(entries[k].1) {
        assert ShownFrom(entries, k) == [k] + rest;
        assert ([k] + rest)[1..] == rest;
        assert Pick(entries, [k] + rest) == [entries[k]] + Pick(entries, rest);
        assert VisibleOutcomes(entries[k..]) == [entries[k]] + VisibleOutcomes(entries[k + 1..]);
      } else {
        assert ShownFrom(entries, k) == rest;
      }
    }
  }

  // ---------------------------------------------------------------------
  // Transcript items

  /** Whether `transcriptData.items` passes the render condition
      `items && items.length > 0`, and with what. */
  datatype TranscriptView =
    | NoItems                     // the placeholder is shown
    | ItemList(items: seq<Json>)  // the items are listed
    | ListThrows                  // the condition holds but `items.map` is not a function

  /** A text read as a number is positive: a run of decimal digits,
      possibly padded with white space, with a positive value. */
  predicate NumericTextPositive(s: string) {
    var t := Trim(s);
    t != [] && AllDigits(t) && DecimalValue(t) > 0
  }

  /** `v > 0` for the value of a `length` property (`undefined` when
      `None`), after JavaScript's conversion to a number. */
  predicate LengthPositive(v: Option<Json>) {
    match v
    case None => false
    case Some(JNull) => false
    case Some(JBool(b)) => b
    case Some(JNumber(n)) => n > 0
    case Some(JString(s)) => NumericTextPositive(s)
    case Some(JArray(es)) => NumericTextPositive(Display(JArray(es)))
    case Some(JObject(_)) => false
  }

  /** `transcriptData?.items && transcriptData.items.length > 0`, then
      `items.map`: a non-empty array is listed; a non-empty string, or an
      object whose `length` is positive, passes the condition and then
      makes `map` throw; everything else (no transcript, a missing or
      empty `items`, a number, and so on) shows the placeholder. */
  function TranscriptShown(transcript: Json): (r: TranscriptView)
    ensures r.ItemList? ==>
      !transcript.JNull? && Property(transcript, "items") == Some(JArray(r.items)) && |r.items| > 0
    ensures (!transcript.JNull? && Property(transcript, "items").Some? &&
      Property(transcript, "items").value.JArray? && |Property(transcript, "items").value.elems| > 0) ==>
      r.ItemList?
    ensures r.ListThrows? <==> (!transcript.JNull? &&
      match Property(transcript, "items")
      case Some(JString(s)) => s != ""
      case Some(JObject(ms)) => LengthPositive(Property(JObject(ms), "length"))
      case _ => false)
  {
    if transcript.JNull? then NoItems
    else match Property(transcript, "items")
      case Some(JArray(es)) => if |es| > 0 then ItemList(es) else NoItems
      case Some(JString(s)) => if |s| > 0 then ListThrows else NoItems
      case Some(JObject(ms)) =>
        if LengthPositive(Property(JObject(ms), "length")) then ListThrows else NoItems
      case _ => NoItems
  }

  /** The speaker shown for an item: `agent` exactly for the assistant's
      items, "Customer" for every other non-null item, and `None` for a
      `null` item, on which reading `item.id` for the key throws. The
      dashboard's `agent` is "AI Agent", the console page's "Agent". */
  function SpeakerLabel(item: Json, agent: string): (r: Option<string>)
    requires agent != "Customer"
    ensures r.None? <==> item.JNull?
    ensures r == Some(agent) <==> Property(item, "role") == Some(JString("assistant"))
    ensures r.Some? && r != Some(agent) ==> r == Some("Customer")
  {
    if item.JNull? then None
    else if Property(item, "role") == Some(JString("assistant")) then Some(agent)
    else Some("Customer")
  }

  /** One rendered item, its speaker and its text; `None` when rendering
      it throws. */
  function RenderItem(item: Json, agent: string): (r: Option<(string, string)>)
    requires agent != "Customer"
    ensures r.Some? <==> !item.JNull? && ItemText(item).Some?
    ensures r.Some? ==> Some(r.value.0) == SpeakerLabel(item, agent) && Some(r.value.1) == ItemText(item)
  {
    var speaker := SpeakerLabel(item, agent);
    var text := ItemText(item);
    if speaker.Some? && text.Some? then Some((speaker.value, text.value)) else None
  }

  /** The values of a sequence of optional values when all are present,
      in order; `None` when one is missing. */
  function AllPresent<T>(xs: seq<Option<T>>): (r: Option<seq<T>>)
    ensures r.None? <==> exists i :: 0 <= i < |xs| && xs[i].None?
    ensures r.Some? ==> (|r.value| == |xs| && forall i :: 0 <= i < |xs| ==> xs[i] == Some(r.value[i]))
  {
    if xs == [] then Some([])
    else
      var rest := AllPresent(xs[1..]);
      assert forall i :: 1 <= i < |xs| ==> xs[i] == xs[1..][i - 1];
      if xs[0].Some? && rest.Some? then Some([xs[0].value] + rest.value) else None
  }

  /** `items.map(...)`: every item rendered in order, or `None` when one
      of them throws. */
  function RenderItems(items: seq<Json>, agent: string): (r: Option<seq<(string, string)>>)
    requires agent != "Customer"
    ensures r.None? <==> exists i :: 0 <= i < |items| && RenderItem(items[i], agent).None?
    ensures r.Some? ==> (|r.value| == |items| &&
      forall i :: 0 <= i < |items| ==> RenderItem(items[i], agent) == Some(r.value[i]))
  {
    var rendered := seq(|items|, i requires 0 <= i < |items| => RenderItem(items[i], agent));
    assert forall i :: 0 <= i < |items| ==> rendered[i] == RenderItem(items[i], agent);
    AllPresent(rendered)
  }

  /** The transcript card: the placeholder, the rendered items, or a
      throw while rendering. */
  datatype TranscriptRender = Placeholder | Rows(rows: seq<(string, string)>) | Throws

  /** The transcript card throws exactly when the list condition lets a
      non-array through, or some listed item cannot be rendered;
      otherwise it shows one row per item, in order. */
  function RenderTranscript(transcript: Json, agent: string): (r: TranscriptRender)
    requires agent != "Customer"
    ensures var v := TranscriptShown(transcript);
      r.Throws? <==> (v.ListThrows? ||
        (v.ItemList? && exists i :: 0 <= i < |v.items| && RenderItem(v.items[i], agent).None?))
    ensures var v := TranscriptShown(transcript);
      r.Placeholder? <==> v.NoItems?
    ensures var v := TranscriptShown(transcript);
      r.Rows? ==> (v.ItemList? && |r.rows| == |v.items| &&
        forall i :: 0 <= i < |v.items| ==> RenderItem(v.items[i], agent) == Some(r.rows[i]))
  {
    match TranscriptShown(transcript)
    case NoItems => Placeholder
    case ListThrows => Throws
    case ItemList(es) =>
      match RenderItems(es, agent)
      case None => Throws
      case Some(rows) => Rows(rows)
  }

  /** A transcript whose items are a non-empty array of objects, each
      with an array of content, renders one row per item, in order, with
      the agent's label exactly on the assistant's items. */
  lemma RenderWellFormed(transcript: Json, agent: string, items: seq<Json>)
    requires agent != "Customer"
    requires transcript.JObject? && Property(transcript, "items") == Some(JArray(items)) && |items| > 0
    requires forall i :: 0 <= i < |items| ==>
      items[i].JObject? && Property(items[i], "content").Some? && Property(items[i], "content").value.JArray?
    ensures var r := RenderTranscript(transcript, agent);
      r.Rows? && |r.rows| == |items| &&
      forall i :: 0 <= i < |items| ==>
        (r.rows[i].0 == agent <==> Property(items[i], "role") == Some(JString("assistant")))
  {
    var r := RenderTranscript(transcript, agent);
    assert r.Rows?;
    forall i | 0 <= i < |items|
      ensures r.rows[i].0 == agent <==> Property(items[i], "role") == Some(JString("assistant"))
    {
      assert RenderItem(items[i], agent) == Some(r.rows[i]);
    }
  }

  /** `item.content.join(" ")`; `None` when `content` is not an array
      (`join` is then not a function and rendering throws). */
  function ItemText(item: Json): (r: Option<string>)
    ensures r.Some? <==> Property(item, "content").Some? && Property(item, "content").value.JArray?
  {
    match Property(item, "content")
    case Some(JArray(es)) => Some(Join(DisplayElements(JArray(es), es), " "))
    case _ => None
  }

  /** For content made of space-free text fragments, the shown text
      splits back into exactly those fragments, in order. */
  lemma ItemTextFragments(item: Json, fragments: seq<string>)
    requires |fragments| >= 1
    requires forall k :: 0 <= k < |fragments| ==> ' ' !in fragments[k]
    requires Property(item, "content") == Some(JArray(seq(|fragments|, k requires 0 <= k < |fragments| => JString(fragments[k]))))
    ensures ItemText(item).Some? && Split(ItemText(item).value, ' ') == fragments
  {
    var es := seq(|fragments|, k requires 0 <= k < |fragments| => JString(fragments[k]));
    DisplayStrings(JArray(es), es, fragments);
    SplitJoin(fragments, ' ');
    assert [' '] == " ";
  }

  lemma {:induction false} DisplayStrings(whole: Json, es: seq<Json>, fragments: seq<string>)
    requires whole.JArray? && forall e :: e in es ==> e in whole.elems
    requires |es| == |fragments| && forall k :: 0 <= k < |es| ==> es[k] == JString(fragments[k])
    ensures DisplayElements(whole, es) == fragments
  {
    if es != [] {
      DisplayStrings(whole, es[1..], fragments[1..]);
    }
  }
}
