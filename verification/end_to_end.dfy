/**
  Properties that span the client and the server: what the form accepts
  against the server's title rule, and how a stored due date travels to the
  client and back. The server's JSON encodes a date-only `time.Time` as
  `YYYY-MM-DDT00:00:00Z` (Go's RFC 3339 encoding of midnight UTC).
 */
module EndToEnd {
  import opened Wrappers
  import JsText
  import CalendarDate
  import Models
  import TaskApi
  import TaskForm

  /** The JSON text the server writes for a stored due date. */
  function EncodeDueDate(d: CalendarDate.Date): string
    requires CalendarDate.Valid(d)
  {
    CalendarDate.Format(d) + "T00:00:00Z"
  }

  /**
    A title the form accepts is never empty for the server, and it fails the
    server's `min` only when it holds a character outside the Basic
    Multilingual Plane (the form counts UTF-16 code units, the server runes).
   */
  lemma FormTitlePassesServerMinimum(f: TaskForm.Fields)
    requires TaskForm.ValidateForm(f).None?
    ensures Models.TitleTag(f.title) != Some(Models.Required)
    ensures Models.TitleTag(f.title) == Some(Models.Min) ==>
      exists i :: 0 <= i < |f.title| && f.title[i] > '\U{FFFF}'
  {
    TaskForm.ValidTitleHasThreeCodeUnits(f);
    JsText.LengthIsCountIffBmp(f.title);
  }

  /** Two emoji pass the form (four code units) and fail the server's `min=3` (two runes). */
  lemma AstralTitleSplitsClientAndServer()
    ensures var f := TaskForm.Fields("\U{1F600}\U{1F600}", "", "2024-01-01");
      TaskForm.ValidateForm(f).None? && Models.TitleTag(f.title) == Some(Models.Min)
  {
    var title := "\U{1F600}\U{1F600}";
    assert JsText.TrimStart(title) == title;
    assert JsText.TrimEnd(title) == title;
    assert JsText.Length(title) == 4;
  }

  /** With the title counted in characters, every title the form accepts passes the server's minimum. */
  lemma CodePointFormPassesServerMinimum(f: TaskForm.Fields)
    requires TaskForm.ValidateFormByCodePoints(f).None?
    ensures Models.TitleTag(f.title) != Some(Models.Required)
    ensures Models.TitleTag(f.title) != Some(Models.Min)
  {
  }

  /** The form has no upper bound, so a 101-character title passes it and fails the server's `max` tag. */
  lemma FormAcceptsOverlongTitle()
    ensures var f := TaskForm.Fields(seq(101, i => 'a'), "", "2024-01-01");
      TaskForm.ValidateForm(f).None? && Models.TitleTag(f.title) == Some(Models.Max)
  {
    var title := seq(101, i => 'a');
    assert JsText.TrimStart(title) == title;
    assert JsText.TrimEnd(title) == title;
  }

  lemma FormatHasNoT(d: CalendarDate.Date)
    requires CalendarDate.Valid(d)
    ensures 'T' !in CalendarDate.Format(d)
  {
    var s := CalendarDate.Format(d);
    CalendarDate.FormatThenParse(d);
    CalendarDate.ParseAcceptsExactlyFullDates(s);
    forall i | 0 <= i < |s|
      ensures s[i] != 'T'
    {
      if i != 4 && i != 7 {
        assert CalendarDate.IsDigit(s[i]);
      }
    }
  }

  /** A stored date reaches the client as its `YYYY-MM-DD` spelling, which the server parses back to the same date. */
  lemma DueDateRoundTrip(d: CalendarDate.Date)
    requires CalendarDate.Valid(d)
    ensures TaskApi.DueDateOf(TaskApi.Obj(map["due_date" := TaskApi.Str(EncodeDueDate(d))])) == TaskApi.Str(CalendarDate.Format(d))
    ensures Models.ParseDueDateField(CalendarDate.Format(d)) == Success(d)
  {
    var s := CalendarDate.Format(d);
    var enc := EncodeDueDate(d);
    var item := TaskApi.Obj(map["due_date" := TaskApi.Str(enc)]);
    assert TaskApi.Prop(item, "due_date") == TaskApi.Str(enc);
    assert enc[|s|] == 'T';
    FormatHasNoT(d);
    BeforeFirstPastPrefix(s, "T00:00:00Z", 'T');
    CalendarDate.FormatThenParse(d);
  }

  lemma {:induction false} BeforeFirstPastPrefix(s: string, rest: string, c: char)
    requires c !in s && rest != [] && rest[0] == c
    ensures JsText.BeforeFirst(s + rest, c) == s
  {
    if s != [] {
      assert (s + rest)[1..] == s[1..] + rest;
      BeforeFirstPastPrefix(s[1..], rest, c);
    }
  }
}
