/** Grouping of video records by the addresses found in their descriptions,
    and the popup list built from one group (youtube_meeting_map.py,
    group_videos_with_short_addresses and create_map_with_meeting_types). */
module VideoGrouping {
  import opened Common
  import MeetingTitle

  /** One video as the channel listing gives it. */
  datatype Video = Video(videoId: string, title: string, description: string)

  /** One entry under an address: the parsed title facets and the links. */
  datatype Detail = Detail(
    date: Option<string>,
    meetingType: Option<string>,
    videoUrl: string,
    descriptionFileUrl: string,
    description: string)

  /** `address_dict`. A Python dict keeps its keys in insertion order, which is
      the order `keys` records; `entries` holds each key's list. */
  datatype AddressIndex = AddressIndex(keys: seq<string>, entries: map<string, seq<Detail>>)

  /** One address match, tagged with the entry it contributes. */
  datatype Occurrence = Occurrence(address: string, detail: Detail)

  const WatchUrlPrefix: string := "https://www.youtube.com/watch?v="

  function VideoUrl(videoId: string): string {
    WatchUrlPrefix + videoId
  }

  function DescriptionFileUrl(baseFileUrl: string, videoId: string): string {
    baseFileUrl + "/" + videoId + ".txt"
  }

  /** The recording link identifies the video: distinct ids give distinct links. */
  lemma VideoUrlInjective(a: string, b: string)
    requires VideoUrl(a) == VideoUrl(b)
    ensures a == b
  {
    assert a == VideoUrl(a)[|WatchUrlPrefix|..];
    assert b == VideoUrl(b)[|WatchUrlPrefix|..];
  }

  /** Under one base URL, the description link identifies the video too. */
  lemma DescriptionFileUrlInjective(baseFileUrl: string, a: string, b: string)
    requires DescriptionFileUrl(baseFileUrl, a) == DescriptionFileUrl(baseFileUrl, b)
    ensures a == b
  {
    var u := DescriptionFileUrl(baseFileUrl, a);
    var n := |baseFileUrl| + 1;
    assert |a| == |b|;
    assert a == u[n..n + |a|];
    assert b == DescriptionFileUrl(baseFileUrl, b)[n..n + |b|];
  }

  /** The entry one video contributes for each address in its description.
      A title that does not parse leaves date and type `None`. */
  function DetailOf(v: Video, baseFileUrl: string): Detail {
    var md := MeetingTitle.ExtractMeetingDetails(v.title);
    Detail(md.date, md.meetingType, VideoUrl(v.videoId), DescriptionFileUrl(baseFileUrl, v.videoId), v.description)
  }

  /** The matches in one description, each tagged with that video's entry. */
  function VideoOccurrences(v: Video, baseFileUrl: string, extract: Extractor): (r: seq<Occurrence>)
    ensures |r| == |extract(v.description)|
  {
    var matches := extract(v.description);
    var d := DetailOf(v, baseFileUrl);
    seq(|matches|, k requires 0 <= k < |matches| => Occurrence(matches[k], d))
  }

  /** All occurrences, in video order and then in match order. */
  function Occurrences(videos: seq<Video>, baseFileUrl: string, extract: Extractor): seq<Occurrence> {
    if videos == [] then []
    else Occurrences(videos[..|videos| - 1], baseFileUrl, extract)
         + VideoOccurrences(videos[|videos| - 1], baseFileUrl, extract)
  }

  /** Everything the extractor returned, in video order, duplicates kept. */
  function AllMatches(videos: seq<Video>, extract: Extractor): seq<string> {
    if videos == [] then []
    else AllMatches(videos[..|videos| - 1], extract) + extract(videos[|videos| - 1].description)
  }

  function Addresses(occ: seq<Occurrence>): (r: seq<string>)
    ensures |r| == |occ|
  {
    seq(|occ|, k requires 0 <= k < |occ| => occ[k].address)
  }

  /** One step of the inner loop: create the key on first sight, then append. */
  function Upsert(index: AddressIndex, o: Occurrence): AddressIndex {
    if o.address in index.entries then
      AddressIndex(index.keys, index.entries[o.address := index.entries[o.address] + [o.detail]])
    else
      AddressIndex(index.keys + [o.address], index.entries[o.address := [o.detail]])
  }

  /** The dictionary after upserting every occurrence in order, from empty. */
  function Build(occ: seq<Occurrence>): AddressIndex {
    if occ == [] then AddressIndex([], map[])
    else Upsert(Build(occ[..|occ| - 1]), occ[|occ| - 1])
  }

  /** Reference definition of an entry list: the details of the occurrences
      of `a`, in processing order. */
  function Select(occ: seq<Occurrence>, a: string): seq<Detail> {
    if occ == [] then []
    else Select(occ[..|occ| - 1], a) + (if occ[|occ| - 1].address == a then [occ[|occ| - 1].detail] else [])
  }

  /** Reference definition of the key order: each string at its first appearance. */
  function FirstOccurrences(s: seq<string>): seq<string> {
    if s == [] then []
    else
      var init := s[..|s| - 1];
      FirstOccurrences(init) + (if s[|s| - 1] in init then [] else [s[|s| - 1]])
  }

  /** No key twice, and the key list and the dictionary agree. */
  ghost predicate WellFormed(index: AddressIndex) {
    && (forall i, j :: 0 <= i < j < |index.keys| ==> index.keys[i] != index.keys[j])
    && (forall a :: a in index.entries <==> a in index.keys)
  }

  lemma AddressesInit(occ: seq<Occurrence>)
    requires occ != []
    ensures Addresses(occ) == Addresses(occ[..|occ| - 1]) + [occ[|occ| - 1].address]
  {
  }

  /** The keys are exactly the matched strings, untrimmed and not case-folded:
      a string is a key if and only if some occurrence carries it, and its
      list is exactly the details of those occurrences, in order. */
  lemma {:induction false} BuildEntries(occ: seq<Occurrence>)
    ensures forall a :: a in Build(occ).entries <==> a in Addresses(occ)
    ensures forall a | a in Build(occ).entries :: Build(occ).entries[a] == Select(occ, a)
  {
    if occ != [] {
      var init := occ[..|occ| - 1];
      BuildEntries(init);
      AddressesInit(occ);
      forall a | a !in Addresses(init)
        ensures Select(init, a) == []
      {
        SelectAbsent(init, a);
      }
    }
  }

  lemma {:induction false} SelectAbsent(occ: seq<Occurrence>, a: string)
    requires a !in Addresses(occ)
    ensures Select(occ, a) == []
  {
    if occ != [] {
      AddressesInit(occ);
      SelectAbsent(occ[..|occ| - 1], a);
    }
  }

  /** Each address is a key once, and the key list matches the dictionary. */
  lemma {:induction false} BuildWellFormed(occ: seq<Occurrence>)
    ensures WellFormed(Build(occ))
  {
    if occ != [] {
      BuildWellFormed(occ[..|occ| - 1]);
    }
  }

  /** Keys appear in the order their address was first matched. */
  lemma {:induction false} BuildKeyOrder(occ: seq<Occurrence>)
    ensures Build(occ).keys == FirstOccurrences(Addresses(occ))
  {
    if occ != [] {
      var init := occ[..|occ| - 1];
      BuildKeyOrder(init);
      BuildEntries(init);
      AddressesInit(occ);
      assert Addresses(occ)[..|occ| - 1] == Addresses(init);
    }
  }

  /** Entries accumulate: the list for `a` over two runs of occurrences is the
      list over the first followed by the list over the second. */
  lemma {:induction false} SelectAppend(occ: seq<Occurrence>, more: seq<Occurrence>, a: string)
    ensures Select(occ + more, a) == Select(occ, a) + Select(more, a)
  {
    if more != [] {
      var m := more[..|more| - 1];
      assert (occ + more)[..|occ + more| - 1] == occ + m;
      SelectAppend(occ, m, a);
    } else {
      assert occ + more == occ;
    }
  }

  /** The number of entries under `a` is the number of times `a` was matched. */
  lemma {:induction false} SelectCount(occ: seq<Occurrence>, a: string)
    ensures |Select(occ, a)| == multiset(Addresses(occ))[a]
  {
    if occ != [] {
      SelectCount(occ[..|occ| - 1], a);
      AddressesInit(occ);
    }
  }

  /** Processing more occurrences never removes or reorders anything: every key
      stays, in place, and every list keeps its old entries as a prefix. */
  lemma BuildAppendOnly(occ: seq<Occurrence>, more: seq<Occurrence>)
    ensures Build(occ).keys <= Build(occ + more).keys
    ensures forall a | a in Build(occ).entries ::
      a in Build(occ + more).entries && Build(occ).entries[a] <= Build(occ + more).entries[a]
  {
    var before, after := Build(occ), Build(occ + more);
    BuildKeyOrderPrefix(occ, more);
    BuildWellFormed(occ);
    BuildWellFormed(occ + more);
    BuildEntries(occ);
    BuildEntries(occ + more);
    forall a | a in before.entries
      ensures a in after.entries && before.entries[a] <= after.entries[a]
    {
      assert a in before.keys;
      SelectAppend(occ, more, a);
    }
  }

  lemma {:induction false} BuildKeyOrderPrefix(occ: seq<Occurrence>, more: seq<Occurrence>)
    ensures Build(occ).keys <= Build(occ + more).keys
  {
    if more != [] {
      var m := more[..|more| - 1];
      assert (occ + more)[..|occ + more| - 1] == occ + m;
      BuildKeyOrderPrefix(occ, m);
    } else {
      assert occ + more == occ;
    }
  }

  lemma {:induction false} AddressesOfOccurrences(videos: seq<Video>, baseFileUrl: string, extract: Extractor)
    ensures Addresses(Occurrences(videos, baseFileUrl, extract)) == AllMatches(videos, extract)
  {
    if videos != [] {
      var init := videos[..|videos| - 1];
      AddressesOfOccurrences(init, baseFileUrl, extract);
      var occ, vo := Occurrences(init, baseFileUrl, extract), VideoOccurrences(videos[|videos| - 1], baseFileUrl, extract);
      assert Addresses(occ + vo) == Addresses(occ) + Addresses(vo);
      assert Addresses(vo) == extract(videos[|videos| - 1].description);
    }
  }

  /** Every entry comes from a video that was processed and whose description
      matched the address: its links are that video's links and its date and
      type are that video's parsed title (`None` when the title did not parse). */
  lemma {:induction false} EntriesTrace(videos: seq<Video>, baseFileUrl: string, extract: Extractor, a: string)
    ensures forall d | d in Select(Occurrences(videos, baseFileUrl, extract), a) ::
      exists i :: 0 <= i < |videos| && a in extract(videos[i].description) && d == DetailOf(videos[i], baseFileUrl)
  {
    if videos != [] {
      var n := |videos| - 1;
      var init := videos[..n];
      EntriesTrace(init, baseFileUrl, extract, a);
      var occ, vo := Occurrences(init, baseFileUrl, extract), VideoOccurrences(videos[n], baseFileUrl, extract);
      SelectAppend(occ, vo, a);
      forall d | d in Select(vo, a)
        ensures a in extract(videos[n].description) && d == DetailOf(videos[n], baseFileUrl)
      {
        SelectInVideo(vo, a, extract(videos[n].description), DetailOf(videos[n], baseFileUrl), d);
      }
      forall d | d in Select(occ, a)
        ensures exists i :: 0 <= i < |videos| && a in extract(videos[i].description) && d == DetailOf(videos[i], baseFileUrl)
      {
        var i :| 0 <= i < |init| && a in extract(init[i].description) && d == DetailOf(init[i], baseFileUrl);
        assert init[i] == videos[i];
      }
    }
  }

  lemma {:induction false} SelectInVideo(vo: seq<Occurrence>, a: string, matches: seq<string>, detail: Detail, d: Detail)
    requires |vo| == |matches|
    requires forall k :: 0 <= k < |vo| ==> vo[k] == Occurrence(matches[k], detail)
    requires d in Select(vo, a)
    ensures a in matches && d == detail
  {
    var n := |vo| - 1;
    if d in Select(vo[..n], a) {
      SelectInVideo(vo[..n], a, matches[..n], detail, d);
    }
  }

  /** With no videos, or with no matches in any description, the dictionary is empty. */
  lemma {:induction false} NoMatchesEmptyIndex(videos: seq<Video>, baseFileUrl: string, extract: Extractor)
    requires forall i :: 0 <= i < |videos| ==> extract(videos[i].description) == []
    ensures Build(Occurrences(videos, baseFileUrl, extract)) == AddressIndex([], map[])
  {
    if videos != [] {
      NoMatchesEmptyIndex(videos[..|videos| - 1], baseFileUrl, extract);
      assert Occurrences(videos, baseFileUrl, extract) == Occurrences(videos[..|videos| - 1], baseFileUrl, extract);
    }
  }

  /** One inner-loop step: the index after `j + 1` matches of a video is the
      index after `j` matches with that match upserted. */
  lemma UpsertStep(done: seq<Occurrence>, v: Video, baseFileUrl: string, extract: Extractor, j: nat)
    requires j < |extract(v.description)|
    ensures Build(done + VideoOccurrences(v, baseFileUrl, extract)[..j + 1])
         == Upsert(Build(done + VideoOccurrences(v, baseFileUrl, extract)[..j]),
                   Occurrence(extract(v.description)[j], DetailOf(v, baseFileUrl)))
  {
    var vo := VideoOccurrences(v, baseFileUrl, extract);
    assert (done + vo[..j + 1])[..|done| + j] == done + vo[..j];
  }

  /** What one upsert does to the dictionary: the address's list gains the new
      detail at its end; every other key keeps its list; and the address joins
      the end of the key order exactly when it had not occurred before. */
  lemma UpsertEffect(occ: seq<Occurrence>, o: Occurrence)
    ensures o.address in Build(occ + [o]).entries
    ensures Build(occ + [o]).entries[o.address] == Select(occ, o.address) + [o.detail]
    ensures forall a :: a in Build(occ + [o]).entries <==> a in Build(occ).entries || a == o.address
    ensures forall a | a in Build(occ).entries && a != o.address ::
              Build(occ + [o]).entries[a] == Build(occ).entries[a]
    ensures Build(occ + [o]).keys
         == if o.address in Addresses(occ) then Build(occ).keys else Build(occ).keys + [o.address]
  {
    assert (occ + [o])[..|occ + [o]| - 1] == occ;
    assert Build(occ + [o]) == Upsert(Build(occ), o);
    BuildEntries(occ);
    if o.address !in Addresses(occ) {
      SelectAbsent(occ, o.address);
    }
  }

  /** `Upsert` written the way the source does it: create an empty list for a
      new key, then append to the key's list. */
  lemma UpsertInPlace(keys: seq<string>, entries: map<string, seq<Detail>>, o: Occurrence)
    ensures Upsert(AddressIndex(keys, entries), o)
         == if o.address in entries
            then AddressIndex(keys, entries[o.address := entries[o.address] + [o.detail]])
            else AddressIndex(keys + [o.address], entries[o.address := []][o.address := [] + [o.detail]])
  {
    if o.address !in entries {
      assert [] + [o.detail] == [o.detail];
      assert entries[o.address := []][o.address := [o.detail]] == entries[o.address := [o.detail]];
    }
  }

  /** The facts the grouping method promises, derived from `Build`. */
  lemma GroupedIndexFacts(videos: seq<Video>, baseFileUrl: string, extract: Extractor)
    ensures var index := Build(Occurrences(videos, baseFileUrl, extract));
      && WellFormed(index)
      && index.keys == FirstOccurrences(AllMatches(videos, extract))
      && (forall a :: a in index.entries <==> a in AllMatches(videos, extract))
      && (forall a | a in index.entries ::
            index.entries[a] == Select(Occurrences(videos, baseFileUrl, extract), a)
            && |index.entries[a]| == multiset(AllMatches(videos, extract))[a])
  {
    var occ := Occurrences(videos, baseFileUrl, extract);
    BuildWellFormed(occ);
    BuildEntries(occ);
    BuildKeyOrder(occ);
    AddressesOfOccurrences(videos, baseFileUrl, extract);
    forall a | a in Build(occ).entries
      ensures |Select(occ, a)| == multiset(AllMatches(videos, extract))[a]
    {
      SelectCount(occ, a);
    }
  }

  /** `group_videos_with_short_addresses`: for each video, derive its links and
      parse its title, then upsert every address its description matched. */
  method GroupVideosWithShortAddresses(videos: seq<Video>, baseFileUrl: string, extract: Extractor)
    returns (index: AddressIndex)
    ensures index == Build(Occurrences(videos, baseFileUrl, extract))
    ensures WellFormed(index)
    ensures index.keys == FirstOccurrences(AllMatches(videos, extract))
    ensures forall a :: a in index.entries <==> a in AllMatches(videos, extract)
    ensures forall a | a in index.entries ::
      index.entries[a] == Select(Occurrences(videos, baseFileUrl, extract), a)
      && |index.entries[a]| == multiset(AllMatches(videos, extract))[a]
  {
    var keys: seq<string> := [];
    var addressDict: map<string, seq<Detail>> := map[];
    var i := 0;
    while i < |videos|
      invariant 0 <= i <= |videos|
      invariant AddressIndex(keys, addressDict) == Build(Occurrences(videos[..i], baseFileUrl, extract))
    {
      var video := videos[i];
      var videoUrl := WatchUrlPrefix + video.videoId;
      var descriptionFileUrl := baseFileUrl + "/" + video.videoId + ".txt";
      var details := MeetingTitle.ExtractMeetingDetails(video.title);
      var addresses := extract(video.description);
      var detail := Detail(details.date, details.meetingType, videoUrl, descriptionFileUrl, video.description);
      assert detail == DetailOf(video, baseFileUrl);
      ghost var done := Occurrences(videos[..i], baseFileUrl, extract);
      ghost var vo := VideoOccurrences(video, baseFileUrl, extract);
      assert done + vo[..0] == done;
      var j := 0;
      while j < |addresses|
        invariant 0 <= j <= |addresses|
        invariant AddressIndex(keys, addressDict) == Build(done + vo[..j])
      {
        var address := addresses[j];
        UpsertStep(done, video, baseFileUrl, extract, j);
        UpsertInPlace(keys, addressDict, Occurrence(address, detail));
        if address !in addressDict {
          addressDict := addressDict[address := []];
          keys := keys + [address];
        }
        addressDict := addressDict[address := addressDict[address] + [detail]];
        j := j + 1;
      }
      assert videos[..i + 1][..i] == videos[..i];
      assert vo[..|addresses|] == vo;
      i := i + 1;
    }
    assert videos[..|videos|] == videos;
    index := AddressIndex(keys, addressDict);
    GroupedIndexFacts(videos, baseFileUrl, extract);
  }

  /** A Python f-string renders `None` as the text "None". */
  function Show(o: Option<string>): string {
    match o
    case None => "None"
    case Some(s) => s
  }

  /** One `<li>` of a marker's popup. */
  function ListItem(d: Detail): string {
    "<li><b>" + Show(d.date) + " - " + Show(d.meetingType) + "</b><br>"
    + "Recording: <a href=\"" + d.videoUrl + "\" target=\"_blank\">Watch Video</a><br>"
    + "Description: <a href=\"" + d.descriptionFileUrl + "\" target=\"_blank\">View Details</a>"
    + "</li>"
  }

  /** `"".join(...)`. */
  function Concat(parts: seq<string>): string {
    if parts == [] then "" else Concat(parts[..|parts| - 1]) + parts[|parts| - 1]
  }

  lemma {:induction false} ConcatAppend(parts: seq<string>, more: seq<string>)
    ensures Concat(parts + more) == Concat(parts) + Concat(more)
  {
    if more != [] {
      var m := more[..|more| - 1];
      assert (parts + more)[..|parts + more| - 1] == parts + m;
      ConcatAppend(parts, m);
    } else {
      assert parts + more == parts;
    }
  }

  /** The list items of a group of entries, in entry order. */
  function DetailsList(ds: seq<Detail>): string {
    Concat(seq(|ds|, k requires 0 <= k < |ds| => ListItem(ds[k])))
  }

  /** The popup of one address's marker: the address, then its entries as a list. */
  function PopupContent(address: string, ds: seq<Detail>): string {
    "<b>Address:</b> " + address + "<br>" + "<b>Details:</b><ul>" + DetailsList(ds) + "</ul>"
  }

  /** The list for two runs of entries is the list of the first then the second. */
  lemma DetailsListAppend(ds: seq<Detail>, more: seq<Detail>)
    ensures DetailsList(ds + more) == DetailsList(ds) + DetailsList(more)
  {
    var items := seq(|ds + more|, k requires 0 <= k < |ds + more| => ListItem((ds + more)[k]));
    var left := seq(|ds|, k requires 0 <= k < |ds| => ListItem(ds[k]));
    var right := seq(|more|, k requires 0 <= k < |more| => ListItem(more[k]));
    assert items == left + right;
    ConcatAppend(left, right);
  }

  /** The popup lists an address's entries in the order the videos were
      processed: later videos only add items after the earlier ones. */
  lemma PopupListsInProcessingOrder(occ: seq<Occurrence>, more: seq<Occurrence>, a: string)
    requires a in Build(occ).entries
    ensures a in Build(occ + more).entries
    ensures DetailsList(Build(occ + more).entries[a]) == DetailsList(Build(occ).entries[a]) + DetailsList(Select(more, a))
    ensures PopupContent(a, Build(occ + more).entries[a]) == PopupContent(a, Build(occ).entries[a] + Select(more, a))
  {
    BuildAppendOnly(occ, more);
    BuildEntries(occ);
    BuildEntries(occ + more);
    SelectAppend(occ, more, a);
    DetailsListAppend(Select(occ, a), Select(more, a));
  }
}
