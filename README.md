# fortville-scraper: a Dafny model of its address pipeline

fortville-scraper collects street addresses from the Town of Fortville's meeting
records and shows them on a map. It has two pipelines:

* `main.py` drives a browser over the town's meetings page. For each
  "Download PDF Agenda" link it downloads the agenda PDF. It then takes
  addresses from the part of each page that follows "New Business" or "Old
  Business", and places one map marker per address the geocoder finds.
* `youtube_meeting_map.py` takes meeting videos. It parses each title
  (`MM/DD/YY - <meeting type>`), extracts addresses from each description, and
  groups the videos in a dictionary keyed by address.

This project models the logic of both pipelines that does not depend on I/O.
It proves what that logic promises:

* the title parser's round trip;
* the grouping table's invariants: unique keys, first-seen key order, and one
  entry per match, appended in processing order;
* the section-selection and page loop of the PDF scan;
* the rule that a meeting is recorded only when its download succeeded;
* the default-locality suffix, skipping geocoder misses, and the default map
  centre.

Modules, one per file:

| file | module | models |
|---|---|---|
| `common.dfy` | `Common` | `Option`, and the address extractor (a regex `findall`) as a function parameter |
| `meeting_title.dfy` | `MeetingTitle` | `extract_meeting_details` |
| `video_grouping.dfy` | `VideoGrouping` | `group_videos_with_short_addresses`, the link URLs, the popup list of `create_map_with_meeting_types` |
| `agenda_pages.dfy` | `AgendaPages` | `extract_addresses_from_pdf`: the `New Business|Old Business` split and the page and section loops |
| `agenda_meetings.dfy` | `AgendaMeetings` | the agenda loop of `get_meeting_data` |
| `agenda_map.dfy` | `AgendaMap` | the marker loop and the centring of `create_map` |

Each `for` statement of the modelled functions is written as a method with a
`while` loop; the generator expression inside the popup's `"".join` is modelled by
the functions `DetailsList` and `Concat`. Each loop method is proved equal to a
specification function: `Build`, `DocumentAddresses`,
`MeetingData`, or `Markers` with `Centre`. The properties are then lemmas about
those functions.

Both address regular expressions are abstracted as a parameter
`extract: string -> seq<string>`, which returns the matches in text order. The
browser listing, the download outcome of each URL, the pages of each PDF and the
geocoder are also parameters. A page is `PageText(s)`, `NoText` (when
`extract_text()` returns `None`) or `ReadError` (an exception while reading).
The section split is modelled exactly, with ASCII case folding.

Grouping keys are the exact matched strings: they are not trimmed and get no
locality suffix. The suffix is added only in `create_map` (main.py:127-128), and
`create_map` geocodes an address again each time it occurs.

## Model

| member | source | states |
|---|---|---|
| MeetingTitle.ExtractMeetingDetails | youtube_meeting_map.py:6-16 | The date and the type are both present or both absent. When present, the title starts with the date (two digits, slash, two digits, slash, two digits), then " - ", then the type. The type is non-empty, has no line feed, and runs to the end of the title or to its first line feed. |
| MeetingTitle.LineHead | youtube_meeting_map.py:11 | The greedy `.+` group takes the longest prefix without a line feed. |
| MeetingTitle.RoundTrip | youtube_meeting_map.py:11-15 | Take any two-digit date groups (the month and day are not checked) and any non-empty type without a line feed. The title date + " - " + type, optionally followed by a new line, parses back to exactly that date and type. |
| MeetingTitle.NoTemplateNoDetails | youtube_meeting_map.py:12-16 | A title that does not start with the date template, " - " and a character other than a line feed gives `(None, None)`. No partial result is possible. |
| MeetingTitle.PlanCommissionTitleParses | youtube_meeting_map.py:102 | The sample title "11/26/25 - Fortville Plan Commission" parses to "11/26/25" and "Fortville Plan Commission". |
| MeetingTitle.UndatedTitle | youtube_meeting_map.py:13-16 | A title with no leading date gives `(None, None)`. |
| MeetingTitle.NoCalendarCheck | youtube_meeting_map.py:11 | "99/99/99 - Council" parses, because there is no calendar check. |
| VideoGrouping.VideoUrlInjective | youtube_meeting_map.py:27 | Different video ids give different watch URLs, so an entry's link determines its video. |
| VideoGrouping.DescriptionFileUrlInjective | youtube_meeting_map.py:28 | For a fixed base URL, different video ids give different description-file URLs. |
| VideoGrouping.VideoOccurrences | youtube_meeting_map.py:31-42 | A video contributes one entry per match in its description, duplicates included. |
| VideoGrouping.GroupVideosWithShortAddresses | youtube_meeting_map.py:18-44 | The loop builds the dictionary `Build` of all occurrences. Keys are unique. Keys are the exact matched strings, in first-seen order. An address is a key exactly when some description matched it. Its list holds exactly its occurrences, and its length equals the number of times the extractor returned that address. |
| VideoGrouping.UpsertEffect | youtube_meeting_map.py:34-36 | One occurrence appends its detail to the end of its address's list, whose earlier entries are that address's earlier occurrences. Every other key keeps its list. The dictionary gains no key but the address, and the address is added to the end of the key order exactly when it had not occurred before. |
| VideoGrouping.BuildWellFormed | youtube_meeting_map.py:33-35 | Each address appears once as a key, and the keys are exactly the dictionary's domain. |
| VideoGrouping.BuildKeyOrder | youtube_meeting_map.py:33-35 | Keys are in the order their addresses were first matched. |
| VideoGrouping.BuildEntries | youtube_meeting_map.py:33-42 | An address is a key exactly when it occurs. Its list is its occurrences in processing order. |
| VideoGrouping.SelectCount | youtube_meeting_map.py:31-42 | The number of entries under an address equals the number of times the address was matched. |
| VideoGrouping.SelectAbsent | youtube_meeting_map.py:33-36 | An address that never matched has no entry. |
| VideoGrouping.SelectAppend | youtube_meeting_map.py:26-36 | Entries are appended in video order, and the earlier entries are kept. |
| VideoGrouping.BuildAppendOnly | youtube_meeting_map.py:34-36 | Processing more videos keeps every existing key, in order. Each existing list keeps its entries as a prefix. |
| VideoGrouping.BuildKeyOrderPrefix | youtube_meeting_map.py:34-35 | The old key sequence is a prefix of the new one. |
| VideoGrouping.AddressesOfOccurrences | youtube_meeting_map.py:26-33 | The processed addresses are every description's matches, concatenated in video order. |
| VideoGrouping.EntriesTrace | youtube_meeting_map.py:26-42 | Every entry comes from a video whose description matched that address. The entry carries that video's URLs, description and parsed title; a title that did not parse gives None and None. |
| VideoGrouping.NoMatchesEmptyIndex | youtube_meeting_map.py:24-44 | No videos, or no matches in any description, gives an empty dictionary. |
| VideoGrouping.ConcatAppend | youtube_meeting_map.py:73-80 | `"".join` of two runs of parts is the join of the first run followed by the join of the second. |
| VideoGrouping.DetailsListAppend | youtube_meeting_map.py:73-80 | The popup's `<li>` list for two runs of entries is the first run's list followed by the second's. |
| VideoGrouping.PopupListsInProcessingOrder | youtube_meeting_map.py:73-84 | An address's popup lists its entries in processing order. Later videos only add items after the existing ones, and the popup shows the earlier entries followed by the new ones. |
| AgendaPages.Split | main.py:56 | `re.split` gives at least one piece, and the first piece is a prefix of the text. |
| AgendaPages.FirstPieceHasNoDelimiter | main.py:56 | No delimiter starts inside the first piece, so it ends at the first delimiter. |
| AgendaPages.SplitAtFirstDelimiter | main.py:56 | When the first delimiter follows `p`, the split of p + delimiter + r is `[p]` followed by the split of r. |
| AgendaPages.SplitWithoutDelimiter | main.py:56 | A text without a delimiter splits into itself alone. |
| AgendaPages.Readable | main.py:52-61 | The pages read are the longest prefix without a read error. |
| AgendaPages.ExtractAddressesFromPdf | main.py:46-62 | The page loop returns the addresses of the pages before the first read error, kept after the error is caught. The addresses are in page order, then section order, then match order. |
| AgendaPages.ScanPage | main.py:54-58 | One page appends exactly that page's addresses. |
| AgendaPages.ExtendFromSections | main.py:57-58 | The section loop appends the matches of every section after the first, in order. |
| AgendaPages.ReadableUpToError | main.py:53-61 | With no error before page i, and an error at i (or no page at i), the pages read are exactly the first i. |
| AgendaPages.CollectAppend | main.py:49-58 | Addresses accumulate page by page, without deduplication. |
| AgendaPages.BlankPageHasNoAddresses | main.py:55 | A page with absent or empty text contributes nothing. |
| AgendaPages.PageWithoutAddressesSkipped | main.py:55 | Removing such a page from the document does not change the result. |
| AgendaPages.ReadErrorKeepsEarlierPages | main.py:60-62 | A read error drops every later page and keeps the addresses already found. |
| AgendaPages.TextBeforeDelimiterIgnored | main.py:56-57 | Text before the first delimiter contributes nothing, whatever it is. |
| AgendaPages.NoDelimiterNoAddresses | main.py:56-57 | A page without a delimiter contributes no address. |
| AgendaMeetings.Recorded | main.py:100-107 | The loop records at most one meeting per link. |
| AgendaMeetings.Fetched | main.py:105 | At most one fetched link per listed link. |
| AgendaMeetings.GetMeetingData | main.py:64-113 | The result is empty when the listing failed. Otherwise it has one meeting per successfully downloaded link, in discovery order, each with that document's addresses. |
| AgendaMeetings.RecordedAppend | main.py:100-107 | Meetings keep discovery order: a longer listing only adds meetings after the existing ones. |
| AgendaMeetings.FailedDownloadSkipped | main.py:105-107 | A link whose download failed is skipped, and the loop continues. |
| AgendaMeetings.RecordedAreFetched | main.py:105-107 | The meetings correspond one to one, in order, to the downloaded links. |
| AgendaMeetings.FetchedWereDownloaded | main.py:100-105 | Every fetched link is in the listing, and its download succeeded. |
| AgendaMeetings.DownloadedAreFetched | main.py:100-105 | Every link of the listing whose download succeeded is fetched. |
| AgendaMeetings.RecordedOnlyWhenDownloaded | main.py:100-107 | A recorded meeting always comes from a listed link whose download succeeded, and it carries that document's addresses. |
| AgendaMeetings.NoDownloadNoMeeting | main.py:105-107 | When no download succeeds, no meeting is recorded. |
| AgendaMap.WithLocality | main.py:127-128 | The completed address starts with the address and contains a comma. It equals the address exactly when the address already has a comma. Otherwise it is the address followed by ", Fortville, IN". |
| AgendaMap.WithLocalityIdempotent | main.py:127-128 | Completing an address twice changes nothing more. |
| AgendaMap.CreateMap | main.py:115-148 | The markers are those of `Markers` over every meeting's completed addresses, in meeting and then address order. The centre is `Centre` of the markers, computed from the latitude and longitude lists kept beside them. |
| AgendaMap.AddMeetingMarkers | main.py:126-143 | One meeting's addresses append exactly their markers. The coordinate lists stay in step with the markers. |
| AgendaMap.MarkersAppend | main.py:125-138 | Markers follow request order. |
| AgendaMap.MissSkipped | main.py:130-143 | A miss or a timeout adds no marker, and the loop continues with the next address. |
| AgendaMap.MarkerCount | main.py:130-143 | The number of markers equals the number of successful lookups. |
| AgendaMap.MarkersAreLocated | main.py:130-138 | Every marker is at a location the geocoder returned for some request. Its popup is "Agenda: " + agenda + a newline + "Address: " + completed address. |
| AgendaMap.LookupsHaveLocality | main.py:127-130 | Every address sent to the geocoder contains a comma. |
| AgendaMap.NoHitDefaultCentre | main.py:145-148 | With no successful lookup there is no marker, and the centre is the default (40.7128, -74.0060). |
| AgendaMap.MeanWithinBounds | main.py:146 | Over exact reals, a mean of coordinates lies between any lower and upper bound of them. |
| AgendaMap.CentreWithinMarkers | main.py:145-146 | With at least one marker and exact real arithmetic, the centre lies inside the markers' bounding box. |

## Left out

- Browser automation: the Chrome path checks, Selenium, the page wait and `driver.quit` (main.py:25-29, 66-94, 109). The listing is a parameter, and `None` stands for any failure before the loop.
- Exceptions raised inside the agenda loop, for example from `get_attribute`. They would make `get_meeting_data` return `[]`, but the model's loop cannot fail once the listing exists.
- `download_pdf` (main.py:31-44) and `save_descriptions_to_files` (youtube_meeting_map.py:46-53): HTTP and file I/O. The download outcome is a function from URL to bool.
- The PDF path `static/<basename(url)>`. Documents are looked up by URL, so two URLs with the same basename do not overwrite each other's file in the model.
- pdfplumber's text extraction. Page texts are given.
- The two address regular expressions (main.py:48, youtube_meeting_map.py:23). They are an abstract extractor; backtracking and the pattern details are not modelled.
- `\d` in the title pattern matches only ASCII digits here. Python also accepts other Unicode decimal digits.
- IGNORECASE in the section split folds ASCII letters only. Python's Unicode case equivalences, such as 'ſ' matching 's', are not modelled.
- Geocoding services: Nominatim (main.py:117, 130) and Google Maps (`geocode_address`, youtube_meeting_map.py:55-62). The geocoder is a function giving a location, no match, or a timeout. Exceptions other than `GeocoderTimedOut` are not modelled.
- The marker loop of `create_map_with_meeting_types` (youtube_meeting_map.py:70-72, 85). That covers its `if lat and lng` test, which skips a latitude or longitude of exactly 0.0 because 0.0 is falsy, and its map centre. Only its popup text is modelled.
- AgendaMap.CreateMap: coordinates and the mean are exact reals, so floating-point rounding of `sum(...) / len(...)` is not modelled.
- AgendaMap.MeanWithinBounds: proved over exact reals only. The Python mean is a float division of a float sum, and rounding can put it slightly outside the bounds. For example, three equal longitudes of -85.7941337 average to -85.79413370000002.
- AgendaMap.CentreWithinMarkers: holds for the exact-real centre only. The float centre computed by `sum(...) / len(...)` can leave the markers' bounding box by a rounding error, as the previous line shows.
- folium rendering and `map.save`, the Flask route, logging and environment variables: UI, configuration and I/O.

