/** The agenda listing loop of `get_meeting_data` (main.py): every agenda link
    found on the meetings page is downloaded, and a meeting is recorded only
    when the download succeeded, with the addresses of the saved document. */
module AgendaMeetings {
  import opened Common
  import AgendaPages

  /** One "Download PDF Agenda" anchor: its `aria-label` and its `href`. */
  datatype AgendaLink = AgendaLink(ariaLabel: string, href: string)

  /** The `(agenda_text, agenda_url, addresses)` tuple of one meeting. */
  datatype Meeting = Meeting(agenda: string, url: string, addresses: seq<string>)

  /** The meeting recorded for a link whose document was downloaded. */
  function MeetingOf(link: AgendaLink, document: string -> seq<AgendaPages.PageRead>, extract: Extractor): Meeting
  {
    Meeting(link.ariaLabel, link.href, AgendaPages.DocumentAddresses(document(link.href), extract))
  }

  /** The meetings the loop records for `links`, in discovery order. */
  function Recorded(links: seq<AgendaLink>, downloaded: string -> bool,
                    document: string -> seq<AgendaPages.PageRead>, extract: Extractor): (r: seq<Meeting>)
    ensures |r| <= |links|
  {
    if links == [] then []
    else
      var last := links[|links| - 1];
      var earlier := Recorded(links[..|links| - 1], downloaded, document, extract);
      if downloaded(last.href) then earlier + [MeetingOf(last, document, extract)] else earlier
  }

  /** What `get_meeting_data` returns: nothing when the listing could not be
      obtained (the browser failed to start or the page did not load),
      otherwise the recorded meetings. */
  function MeetingData(listing: Option<seq<AgendaLink>>, downloaded: string -> bool,
                       document: string -> seq<AgendaPages.PageRead>, extract: Extractor): seq<Meeting>
  {
    match listing
    case None => []
    case Some(links) => Recorded(links, downloaded, document, extract)
  }

  /** The links whose download succeeded, in discovery order. */
  function Fetched(links: seq<AgendaLink>, downloaded: string -> bool): (r: seq<AgendaLink>)
    ensures |r| <= |links|
  {
    if links == [] then []
    else
      var last := links[|links| - 1];
      var earlier := Fetched(links[..|links| - 1], downloaded);
      if downloaded(last.href) then earlier + [last] else earlier
  }

  /** `get_meeting_data`, with the listing, the download outcome of each URL
      and the pages of each downloaded document given. */
  method GetMeetingData(listing: Option<seq<AgendaLink>>, downloaded: string -> bool,
                        document: string -> seq<AgendaPages.PageRead>, extract: Extractor)
    returns (meetings: seq<Meeting>)
    ensures meetings == MeetingData(listing, downloaded, document, extract)
  {
    if listing.None? {
      return [];
    }
    var elements := listing.value;
    meetings := [];
    var i := 0;
    while i < |elements|
      invariant 0 <= i <= |elements|
      invariant meetings == Recorded(elements[..i], downloaded, document, extract)
    {
      var agendaText := elements[i].ariaLabel;
      var agendaUrl := elements[i].href;
      assert elements[..i + 1][..i] == elements[..i];
      if downloaded(agendaUrl) {
        var addresses := AgendaPages.ExtractAddressesFromPdf(document(agendaUrl), extract);
        meetings := meetings + [Meeting(agendaText, agendaUrl, addresses)];
      }
      i := i + 1;
    }
    assert elements[..i] == elements;
  }

  /** Meetings keep discovery order: the links of a longer listing add their
      meetings after those of a shorter one. */
  lemma {:induction false} RecordedAppend(links: seq<AgendaLink>, more: seq<AgendaLink>, downloaded: string -> bool,
                                          document: string -> seq<AgendaPages.PageRead>, extract: Extractor)
    ensures Recorded(links + more, downloaded, document, extract)
         == Recorded(links, downloaded, document, extract) + Recorded(more, downloaded, document, extract)
  {
    if more == [] {
      assert links + more == links;
    } else {
      var m := more[..|more| - 1];
      assert (links + more)[..|links + more| - 1] == links + m;
      RecordedAppend(links, m, downloaded, document, extract);
    }
  }

  /** A link whose download failed is skipped and the loop goes on. */
  lemma FailedDownloadSkipped(before: seq<AgendaLink>, link: AgendaLink, after: seq<AgendaLink>,
                              downloaded: string -> bool, document: string -> seq<AgendaPages.PageRead>, extract: Extractor)
    requires !downloaded(link.href)
    ensures Recorded(before + [link] + after, downloaded, document, extract)
         == Recorded(before + after, downloaded, document, extract)
  {
    assert Recorded([link], downloaded, document, extract) == [] by {
      assert [link][..0] == [];
    }
    RecordedAppend(before + [link], after, downloaded, document, extract);
    RecordedAppend(before, [link], downloaded, document, extract);
    RecordedAppend(before, after, downloaded, document, extract);
  }

  /** The recorded meetings are exactly the successfully downloaded links,
      one meeting per link, in the same order. */
  lemma {:induction false} RecordedAreFetched(links: seq<AgendaLink>, downloaded: string -> bool,
                                              document: string -> seq<AgendaPages.PageRead>, extract: Extractor)
    ensures |Recorded(links, downloaded, document, extract)| == |Fetched(links, downloaded)|
    ensures forall k :: 0 <= k < |Fetched(links, downloaded)| ==>
              Recorded(links, downloaded, document, extract)[k] == MeetingOf(Fetched(links, downloaded)[k], document, extract)
  {
    if links != [] {
      RecordedAreFetched(links[..|links| - 1], downloaded, document, extract);
    }
  }

  /** Every fetched link comes from the listing and was downloaded. */
  lemma {:induction false} FetchedWereDownloaded(links: seq<AgendaLink>, downloaded: string -> bool)
    ensures forall k :: 0 <= k < |Fetched(links, downloaded)| ==>
              Fetched(links, downloaded)[k] in links && downloaded(Fetched(links, downloaded)[k].href)
  {
    if links != [] {
      var earlier := links[..|links| - 1];
      FetchedWereDownloaded(earlier, downloaded);
      assert forall l :: l in earlier ==> l in links;
    }
  }

  /** Every downloaded link of the listing is fetched. */
  lemma {:induction false} DownloadedAreFetched(links: seq<AgendaLink>, downloaded: string -> bool)
    ensures forall k :: 0 <= k < |links| && downloaded(links[k].href) ==> links[k] in Fetched(links, downloaded)
  {
    if links != [] {
      var earlier := links[..|links| - 1];
      DownloadedAreFetched(earlier, downloaded);
      assert forall k :: 0 <= k < |earlier| ==> links[k] == earlier[k];
    }
  }

  /** A recorded meeting always names a link of the listing whose download
      succeeded, and carries that document's addresses. */
  lemma RecordedOnlyWhenDownloaded(links: seq<AgendaLink>, downloaded: string -> bool,
                                   document: string -> seq<AgendaPages.PageRead>, extract: Extractor, m: Meeting)
    requires m in Recorded(links, downloaded, document, extract)
    ensures exists link :: link in links && downloaded(link.href) && m == MeetingOf(link, document, extract)
  {
    RecordedAreFetched(links, downloaded, document, extract);
    FetchedWereDownloaded(links, downloaded);
    var k :| 0 <= k < |Recorded(links, downloaded, document, extract)| && Recorded(links, downloaded, document, extract)[k] == m;
    var link := Fetched(links, downloaded)[k];
    assert link in links && downloaded(link.href) && m == MeetingOf(link, document, extract);
  }

  /** When no download succeeds, no meeting is recorded. */
  lemma {:induction false} NoDownloadNoMeeting(links: seq<AgendaLink>, downloaded: string -> bool,
                                               document: string -> seq<AgendaPages.PageRead>, extract: Extractor)
    requires forall k :: 0 <= k < |links| ==> !downloaded(links[k].href)
    ensures Recorded(links, downloaded, document, extract) == []
  {
    if links != [] {
      var earlier := links[..|links| - 1];
      assert forall k :: 0 <= k < |earlier| ==> earlier[k] == links[k];
      NoDownloadNoMeeting(earlier, downloaded, document, extract);
    }
  }
}
