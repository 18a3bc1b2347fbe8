/** The meeting-title parser: `MM/DD/YY - <meeting type>`, matched at the
    start of a video title (youtube_meeting_map.py, extract_meeting_details). */
module MeetingTitle {
  import opened Common

  /** The two captured groups; both are present or both are `None`. */
  datatype MeetingDetails = MeetingDetails(date: Option<string>, meetingType: Option<string>)

  /** `\d`, restricted to ASCII digits. */
  predicate IsDigit(c: char) {
    '0' <= c <= '9'
  }

  /** `\d{2}/\d{2}/\d{2}`: the shape of a date, with no calendar check. */
  predicate IsDateShape(d: string) {
    && |d| == 8
    && IsDigit(d[0]) && IsDigit(d[1]) && d[2] == '/'
    && IsDigit(d[3]) && IsDigit(d[4]) && d[5] == '/'
    && IsDigit(d[6]) && IsDigit(d[7])
  }

  /** The literal text between the date group and the type group. */
  const Separator: string := " - "

  /** What the greedy `.+` group consumes: the longest prefix of `s` holding
      no line feed (without DOTALL, `.` matches anything but `\n`). */
  function LineHead(s: string): (r: string)
    ensures r <= s && '\n' !in r
    ensures |r| == |s| || s[|r|] == '\n'
  {
    if s == [] || s[0] == '\n' then [] else [s[0]] + LineHead(s[1..])
  }

  /** `re.match(r'(\d{2}/\d{2}/\d{2}) - (.+)', title)`: anchored at the start,
      not at the end. A match yields both groups, anything else `(None, None)`.
      Whatever is returned is literally the head of the title: a date shape,
      the separator, then a non-empty rest of the first line. */
  function ExtractMeetingDetails(title: string): (r: MeetingDetails)
    ensures r.date.Some? <==> r.meetingType.Some?
    ensures r.date.Some? ==>
      var d, c := r.date.value, r.meetingType.value;
      && IsDateShape(d)
      && c != [] && '\n' !in c
      && 11 + |c| <= |title|
      && title[..11 + |c|] == d + Separator + c
      && (|title| == 11 + |c| || title[11 + |c|] == '\n')
  {
    if |title| >= 12 && IsDateShape(title[..8]) && title[8..11] == Separator && title[11] != '\n' then
      var c := LineHead(title[11..]);
      assert title[..11 + |c|] == title[..8] + Separator + c;
      MeetingDetails(Some(title[..8]), Some(c))
    else
      MeetingDetails(None, None)
  }

  /** `LineHead` stops exactly at the end of a line-feed-free prefix. */
  lemma {:induction false} LineHeadOfLine(c: string, rest: string)
    requires '\n' !in c
    requires rest == [] || rest[0] == '\n'
    ensures LineHead(c + rest) == c
  {
    if c != [] {
      assert (c + rest)[1..] == c[1..] + rest;
      LineHeadOfLine(c[1..], rest);
    }
  }

  /** Round trip: any date shape D (no calendar check), the separator, and a
      non-empty line-feed-free C, followed by nothing or by a new line, parses
      back to exactly (D, C). */
  lemma RoundTrip(d: string, c: string, rest: string)
    requires IsDateShape(d) && c != [] && '\n' !in c
    requires rest == [] || rest[0] == '\n'
    ensures ExtractMeetingDetails(d + Separator + c + rest) == MeetingDetails(Some(d), Some(c))
  {
    var t := d + Separator + c + rest;
    assert t[..8] == d;
    assert t[8..11] == Separator;
    assert t[11..] == c + rest;
    LineHeadOfLine(c, rest);
  }

  /** A title whose head is not a date shape, the separator and a character
      other than a line feed yields `(None, None)`, never a partial result. */
  lemma NoTemplateNoDetails(title: string)
    requires !(|title| >= 12 && IsDateShape(title[..8]) && title[8..11] == Separator && title[11] != '\n')
    ensures ExtractMeetingDetails(title) == MeetingDetails(None, None)
  {
  }

  /** The title of the first sample video. */
  const PlanCommissionTitle: string := "11/26/25 - Fortville Plan Commission"

  lemma PlanCommissionTitleShape()
    ensures PlanCommissionTitle == "11/26/25" + Separator + "Fortville Plan Commission" + ""
  {
    var t, u := PlanCommissionTitle, "11/26/25" + Separator + "Fortville Plan Commission";
    assert |t| == |u| == 36;
    forall i | 0 <= i < 36
      ensures t[i] == u[i]
    {
    }
    assert u + "" == u;
  }

  /** The sample title parses to its date and its meeting type. */
  lemma PlanCommissionTitleParses()
    ensures ExtractMeetingDetails(PlanCommissionTitle)
         == MeetingDetails(Some("11/26/25"), Some("Fortville Plan Commission"))
  {
    PlanCommissionTitleShape();
    RoundTrip("11/26/25", "Fortville Plan Commission", "");
  }

  /** A title with no leading date. */
  lemma UndatedTitle()
    ensures ExtractMeetingDetails("Fortville Plan Commission") == MeetingDetails(None, None)
  {
    assert !IsDigit("Fortville Plan Commission"[0]);
    NoTemplateNoDetails("Fortville Plan Commission");
  }

  /** No calendar validation: month 99, day 99 still parses. */
  lemma NoCalendarCheck()
    ensures ExtractMeetingDetails("99/99/99 - Council") == MeetingDetails(Some("99/99/99"), Some("Council"))
  {
    RoundTrip("99/99/99", "Council", "");
    assert "99/99/99" + Separator + "Council" + "" == "99/99/99 - Council";
  }
}
