# lounasvahti core in Dafny

lounasvahti is a lunch-menu comment service. It scrapes a restaurant's weekly
menu from an ASP.NET site, mails it out, and reads replies in which diners
comment on a meal. This project models three parts of it and proves properties
of the models:

- **The scraper session** (`lounasvahti/services/scraper.py`, class `Scraper`)
  is modelled as the Dafny class `Scraper.Scraper`. Its fields are:
  - `data`, the persisted selection record of six keys;
  - `stateVars`, the hidden ASP.NET fields replayed on every POST;
  - `file`, what the data file holds;
  - `sent`, the requests handed to the HTTP session.

  Each method updates those fields the way its Python counterpart does. The
  menu extraction is a method with loops, proved equal to a pure `Extract`.
  Lemmas about `Extract` state that:
  - dates keep the order of their first appearance;
  - items stay grouped under their date, one per row;
  - the first panel with a bad date raises.
- **The date and text utilities** (`lounasvahti/utils.py`) are pure functions
  over a model of Python's proleptic Gregorian `datetime.date`, years 1 to
  9999 (module `Calendar`):
  - the `strptime`/`strftime` conversions between `DD.MM.YYYY` and
    `YYYY-MM-DD`;
  - Finnish weekday names;
  - this week's and next week's workdays;
  - today and tomorrow;
  - comment sanitising.

  The parsers are proved exact against an independent description of the
  spellings `strptime` accepts that are written with ASCII digits.
- **Inbound mail** (`lounasvahti/services/email_receiver.py`) covers three
  pieces:
  - `get_first_word`;
  - `parse_comment`, as loops proved equal to a pure `MealAndComment`;
  - the control-word dispatch of `handle_DATA`.

  The main property is a round trip. For a reply laid out as meal line,
  `Kommentti: ...` line, continuation lines and then a quoted tail,
  `parse_comment` recovers the meal name and the comment.

Modules:

| module | contents |
|---|---|
| `Wrappers` | `Option` and `Result` |
| `Text` | the Python `str` operations used: `strip`, `startswith`, `find`, `join`, `splitlines`, `lower` |
| `Calendar` | `datetime.date` |
| `Utils` | `utils.py` |
| `EmailReceiver` | `email_receiver.py` |
| `Scraper` | `scraper.py` |

`strptime("%d.%m.%Y")` accepts more than two-digit day and month fields:
- one-digit days and months;
- a space before a one-digit day, as in `" 5.1.2025"`.

The model follows `strptime`. `Utils.DaySpellings` and `Utils.MonthSpellings`
list what it accepts in ASCII digits.

## Model

| member | source | states |
|---|---|---|
| Calendar.DaysBeforeYearFormula | lounasvahti/utils.py:42 | the day count before a year, defined year by year, equals the closed form `365p + p/4 - p/100 + p/400` that `date.toordinal` uses |
| Calendar.OrdinalRange | lounasvahti/utils.py:26 | every valid date has an ordinal from 1 (only 0001-01-01) to 3652059 (only 9999-12-31) |
| Calendar.NextDay | lounasvahti/utils.py:89 | `d + timedelta(days=1)` is a valid date one ordinal later, for every date before 9999-12-31 |
| Calendar.AddDays | lounasvahti/utils.py:50-51 | `d + timedelta(days=n)` is a valid date exactly `n` ordinals later when that stays on or before 9999-12-31 |
| Calendar.SubDays | lounasvahti/utils.py:58 | `d - timedelta(days=n)` is a valid date exactly `n` ordinals earlier when that stays on or after 0001-01-01 |
| Calendar.WeekdayAfter | lounasvahti/utils.py:50-51 | adding `n` days moves `weekday()` forward by `n` modulo 7 |
| Calendar.WeekdayBefore | lounasvahti/utils.py:58 | subtracting `n` days moves `weekday()` back by `n` modulo 7 |
| Utils.FinnishDateToIso | lounasvahti/utils.py:17-30 | every failure is the ValueError "Invalid date format. Expected format: DD.MM.YYYY"; a success has the `YYYY-MM-DD` shape |
| Utils.ParseFinnish | lounasvahti/utils.py:26 | `strptime(s, "%d.%m.%Y")` only ever yields a valid date |
| Utils.ParseIso | lounasvahti/utils.py:41 | `strptime(s, "%Y-%m-%d")` only ever yields a valid date |
| Utils.ParseFinnishExact | lounasvahti/utils.py:26 | `strptime(s, "%d.%m.%Y")` yields date `d` exactly when `s` is one of the ASCII-digit spellings of `d` that the format accepts |
| Utils.ParseIsoExact | lounasvahti/utils.py:41 | `strptime(s, "%Y-%m-%d")` yields date `d` exactly when `s` is one of the ASCII-digit spellings of `d` that the format accepts |
| Utils.DayFieldSpellings | lounasvahti/utils.py:26 | the `%d` field reads a day 1..31 exactly from its two-digit, one-digit or space-padded ASCII spelling |
| Utils.MonthFieldSpellings | lounasvahti/utils.py:26 | the `%m` field reads a month 1..12 exactly from its two-digit or one-digit spelling |
| Utils.YearFieldSpelling | lounasvahti/utils.py:26 | the `%Y` field reads only four ASCII digits, and reads back the year `strftime` writes |
| Utils.SplitThreeParts | lounasvahti/utils.py:26 | the three fields split off at the separators rebuild the input, and the first two hold no separator |
| Utils.SplitThreeOf | lounasvahti/utils.py:26 | three fields joined by a separator absent from the first two split back into those fields |
| Utils.IsoFormat | lounasvahti/utils.py:27 | `strftime("%Y-%m-%d")` writes ten characters with dashes at positions 4 and 7 |
| Utils.IsoRoundTrip | lounasvahti/utils.py:27 | the ISO text `strftime("%Y-%m-%d")` writes for a date parses back to that date |
| Utils.FinnishDateToIsoExact | lounasvahti/utils.py:24-30 | the conversion succeeds exactly for the ASCII-digit spellings of a valid date, and then gives that date's ISO text; otherwise it raises |
| Utils.FinnishFormatAccepted | lounasvahti/utils.py:26-27 | every date written as zero-padded `DD.MM.YYYY` converts to its ISO text |
| Utils.FinnishDateToIsoParses | lounasvahti/utils.py:26-27 | a converted date reads back, as ISO, as the same date that was read from the Finnish text |
| Utils.FinnishIsoRoundTrip | lounasvahti/utils.py:26-27 | for zero-padded input, rewriting the ISO result as `DD.MM.YYYY` gives back the input |
| Utils.RejectsDashes | lounasvahti/utils.py:28-30 | "31-12-2024" raises ValueError |
| Utils.RejectsYearFirst | lounasvahti/utils.py:28-30 | "2024.12.31" raises ValueError |
| Utils.RejectsEmpty | lounasvahti/utils.py:28-30 | "" raises ValueError |
| Utils.RejectsThirtiethOfFebruary | lounasvahti/utils.py:28-30 | "30.02.2025" raises ValueError |
| Utils.WeekdayInFinnish | lounasvahti/utils.py:32-45 | a success is one of the seven Finnish names; every failure is the ValueError "Invalid date format. Expected format: YYYY-MM-DD" |
| Utils.WeekdayInFinnishExact | lounasvahti/utils.py:39-45 | an accepted ASCII-digit ISO spelling of a date gets the name of that date's weekday; any other text raises |
| Utils.WeekdayAnchors | lounasvahti/utils.py:42 | 0001-01-01 is weekday 0, and "2025-01-06" is named "maanantai" |
| Utils.ThisMonday | lounasvahti/utils.py:58 | `today - timedelta(days=today.weekday())` is a Monday `weekday()` days back, and its Friday is still a valid date |
| Utils.NextMonday | lounasvahti/utils.py:50 | `today + timedelta(days=7 - weekday())` is a Monday 1 to 7 days ahead; it raises OverflowError exactly when that passes 9999-12-31 |
| Utils.WorkdaysFromMonday | lounasvahti/utils.py:51-53 | the five ISO strings from a Monday are consecutive dates named maanantai to perjantai |
| Utils.ThisWeekWorkdaysSpec | lounasvahti/utils.py:55-61 | `get_this_week_workdays` lists this week's Monday to Friday, in order, as ISO text |
| Utils.NextWeekWorkdaysSpec | lounasvahti/utils.py:47-53 | `get_next_week_workdays` lists next week's Monday to Friday, in order; it fails exactly when that Monday is past 9999-12-31 |
| Utils.MondayAndFriday | lounasvahti/utils.py:63-79 | `get_monday_and_friday` raises OverflowError exactly when next week is asked for and its Monday is past 9999-12-31 |
| Utils.MondayAndFridayEnds | lounasvahti/utils.py:63-79 | `get_monday_and_friday` returns the first and last of the matching week's workdays, and fails exactly when they do |
| Utils.GetToday | lounasvahti/utils.py:81-85 | `get_today` reads back as today and is named by today's weekday |
| Utils.GetTomorrow | lounasvahti/utils.py:87-91 | `get_tomorrow` raises OverflowError exactly on 9999-12-31 |
| Utils.TodayAndTomorrow | lounasvahti/utils.py:81-91 | `get_today` reads back as today; `get_tomorrow` reads back as the next date and is named by the next weekday |
| Utils.TodayIsExact | lounasvahti/utils.py:93-102 | `today_is(day)` holds exactly when `day` is the Finnish name of today's weekday |
| Utils.StripTags | lounasvahti/utils.py:126 | removing tags never lengthens the comment |
| Utils.SanitizeComment | lounasvahti/utils.py:116-134 | `None` and "" give ""; every result has no leading or trailing whitespace |
| Utils.StripTagsLeavesNoTag | lounasvahti/utils.py:126 | after `re.sub(r"<[^>]+>", "", s)` no substring matches `<[^>]+>` |
| Utils.StripTagsWithoutTag | lounasvahti/utils.py:122-126 | a comment in which `re.search(r"<[^>]+>")` finds nothing passes tag removal unchanged |
| Text.StripSpec | lounasvahti/utils.py:132 | `str.strip()` leaves no whitespace at either end, and gives "" exactly for blank text |
| Text.SplitJoinedLines | lounasvahti/services/email_receiver.py:105 | `splitlines` undoes joining lines with "\n", except that a trailing empty line disappears |
| Text.LowerMatches | lounasvahti/services/email_receiver.py:38-42 | a word lowers to a small-letter ASCII control word exactly when it writes each of its letters in either case |
| EmailReceiver.WordPrefix | lounasvahti/services/email_receiver.py:97 | the longest prefix made of `[\wåäöÅÄÖ]` characters |
| EmailReceiver.GetFirstWord | lounasvahti/services/email_receiver.py:95-98 | `None` exactly when no word character follows the leading whitespace; otherwise the maximal word-character run right after that whitespace |
| EmailReceiver.FirstWordOf | lounasvahti/services/email_receiver.py:97 | whitespace, then a word, then a non-word character or nothing: that word is the first word |
| EmailReceiver.FirstNonBlank | lounasvahti/services/email_receiver.py:108 | the meal line is the first line that is not blank once stripped; there is none exactly when all lines are blank |
| EmailReceiver.FirstMarker | lounasvahti/services/email_receiver.py:114-115 | the first line from `from` on whose stripped text starts with "Kommentti:" |
| EmailReceiver.ContinuationEndSpec | lounasvahti/services/email_receiver.py:118-123 | continuation lines run up to the first quoted, "On ... wrote:" or blank line, which is not included |
| EmailReceiver.ContinuationEndUnique | lounasvahti/services/email_receiver.py:118-123 | any stopping point with those two properties is the continuation end |
| EmailReceiver.ParseComment | lounasvahti/services/email_receiver.py:100-126 | the loops of `parse_comment` return exactly `MealAndComment` of the text's lines |
| EmailReceiver.FindMealLine | lounasvahti/services/email_receiver.py:108-110 | the scan for the meal line finds the first non-blank line |
| EmailReceiver.FindMarkerLine | lounasvahti/services/email_receiver.py:114-115 | the scan from the second line finds the first marker line |
| EmailReceiver.ReadComment | lounasvahti/services/email_receiver.py:116-123 | the comment is the stripped text after the first "Kommentti:", then "\n" and each stripped continuation line |
| EmailReceiver.BlankTextHasNoMeal | lounasvahti/services/email_receiver.py:105-110 | there is no meal name exactly when every line is blank, and then there is no comment either; a meal name is never empty |
| EmailReceiver.FirstLineIsNotSearched | lounasvahti/services/email_receiver.py:114 | a "Kommentti:" on the first line alone yields no comment |
| EmailReceiver.ReplyRoundTrip | lounasvahti/services/email_receiver.py:100-126 | lines laid out as meal, "Kommentti: c0", c1..cn and then a stopping tail give back the meal and the comment lines joined by "\n" |
| EmailReceiver.ReplyComment | lounasvahti/services/email_receiver.py:112-124 | the comment read from such a reply is the comment lines joined by "\n" |
| EmailReceiver.ReplyTextRoundTrip | lounasvahti/services/email_receiver.py:100-126 | the same round trip for the reply as one text, through `splitlines` |
| EmailReceiver.HandleData | lounasvahti/services/email_receiver.py:35-58 | the dispatch of `handle_DATA` takes exactly the action `Dispatch` names |
| EmailReceiver.ControlWords | lounasvahti/services/email_receiver.py:36-45 | subscribe exactly when the first word is "tilaa" in any case; unsubscribe exactly when it is "lopeta" |
| EmailReceiver.UpdateNeedsBoth | lounasvahti/services/email_receiver.py:47-58 | a comment update happens exactly when no control word leads and both meal name and comment are non-empty, and it carries those two |
| Scraper.LoadData | lounasvahti/services/scraper.py:47-57 | the record has exactly the six keys, each with its stored value or `None` |
| Scraper.LoadSaved | lounasvahti/services/scraper.py:57-62 | a saved record loads back restricted to the six keys, and unchanged if it has no others |
| Scraper.LoadMissing | lounasvahti/services/scraper.py:49-57 | a missing file, or one that is not valid JSON, loads like an empty record: all six values `None` |
| Scraper.Overlay | lounasvahti/services/scraper.py:68-70 | the hidden-field names afterwards are the old names plus those on the page |
| Scraper.OverlayValues | lounasvahti/services/scraper.py:68-70 | a name on the page takes the value of its last input; every other name keeps its value |
| Scraper.OverlayAppend | lounasvahti/services/scraper.py:68-70 | taking two pages' inputs in turn equals taking their concatenation |
| Scraper.MergeForm | lounasvahti/services/scraper.py:83 | the posted form holds every caller field, and every hidden field the caller does not override |
| Scraper.Check | lounasvahti/services/scraper.py:75-76 | a request fails exactly on a connection error or a 4xx or 5xx status |
| Scraper.FindSelect | lounasvahti/services/scraper.py:137 | `soup.find` returns the first select of that name in document order, and `None` only when the page has none |
| Scraper.LastWith | lounasvahti/services/scraper.py:139 | the last option with that text and a non-empty value |
| Scraper.OptionMapSpec | lounasvahti/services/scraper.py:139 | the dict comprehension has a text exactly when some option with that text has a value, and maps it to the last such value |
| Scraper.OptionMapDropsEmpty | lounasvahti/services/scraper.py:139 | no entry has an empty value |
| Scraper.SelectOptions | lounasvahti/services/scraper.py:137-139 | the option map of the first select of that name, or an error exactly when the page has none |
| Scraper.PanelDateOf | lounasvahti/services/scraper.py:95-96 | a header of three leading characters and a `DD.MM.YYYY` date dates the panel with that date's ISO text; a panel without a header raises |
| Scraper.RowItemsSpec | lounasvahti/services/scraper.py:99-103 | one menu item per row: its dish labels joined with ", " |
| Scraper.FindMenuInSoup | lounasvahti/services/scraper.py:90-110 | the loops of `_find_menu_in_soup` return exactly `Extract` of the panels |
| Scraper.AddPanelRows | lounasvahti/services/scraper.py:99-106 | the inner loop adds the panel's rows, in order, under its date |
| Scraper.DaysStopAtError | lounasvahti/services/scraper.py:93-96 | a panel whose header date fails ends the extraction with its error, whatever follows |
| Scraper.DaysFail | lounasvahti/services/scraper.py:93-96 | dating fails exactly when some panel fails, with the first failing panel's error |
| Scraper.ExtractFails | lounasvahti/services/scraper.py:90-110 | the extraction raises exactly when some panel's header is missing or its date is malformed, with the first such error |
| Scraper.DaysSpec | lounasvahti/services/scraper.py:93-96 | when every date parses, each panel is dated by its own header and keeps its rows |
| Scraper.Dedup | lounasvahti/services/scraper.py:104-105 | the keys of a dict built by insertion: the same elements, each once |
| Scraper.AddRowsDates | lounasvahti/services/scraper.py:104-106 | adding a panel's rows keeps each key once, and appends the date only when it is new and the panel has rows |
| Scraper.AddRowsItems | lounasvahti/services/scraper.py:104-106 | the panel's items are appended under its date; every other date is untouched |
| Scraper.BuildDates | lounasvahti/services/scraper.py:92-110 | the menu's dates are those of the panels with rows, each once, in order of first appearance |
| Scraper.BuildItems | lounasvahti/services/scraper.py:92-110 | each date maps to the items of all rows of all panels with that date, in document order; no other date is a key |
| Scraper.MenuPayloadFields | lounasvahti/services/scraper.py:117-125 | the payload holds the seven fields, with the selected type, restaurant, language "fi" and week "0" or "1" |
| Scraper.MenuPayloadButton | lounasvahti/services/scraper.py:116-123 | the event target and the script manager name header item `$ctl01$` for this week, `$ctl02$` for the next |
| Scraper.MenuPayloadsDiffer | lounasvahti/services/scraper.py:116-125 | the two weeks' payloads differ in exactly the three week fields |
| Scraper.AfterReply | lounasvahti/services/scraper.py:65-79 | after a response, the hidden fields keep every name they had: they pile up and are never reset; a failed request leaves them unchanged |
| Scraper.Scraper.constructor | lounasvahti/services/scraper.py:28-45 | the record is loaded from the file; no hidden fields; nothing sent |
| Scraper.Scraper.SaveData | lounasvahti/services/scraper.py:59-63 | the file holds the record |
| Scraper.Scraper.UpdateStateVars | lounasvahti/services/scraper.py:65-71 | the hidden fields are overlaid by every input of every `aspNetHidden` container, in document order |
| Scraper.Scraper.Get | lounasvahti/services/scraper.py:73-79 | one GET is sent when there is a URL; on success the page's hidden fields are taken, on failure nothing changes |
| Scraper.Scraper.Post | lounasvahti/services/scraper.py:81-88 | one POST of the merged form is sent when there is a URL; on success the page's hidden fields are taken |
| Scraper.Scraper.GetMenu | lounasvahti/services/scraper.py:112-130 | GET the endpoint, then POST the week's payload over the new hidden fields; the result is the extracted menu or the first error; the hidden fields take in both pages' inputs, as far as the requests succeed; the record is unchanged |
| Scraper.Scraper.GetRestaurantTypes | lounasvahti/services/scraper.py:132-139 | one GET of the site URL; the result is the option map of the type dropdown or the first error; the hidden fields take in the page's inputs on success |
| Scraper.Scraper.GetRestaurants | lounasvahti/services/scraper.py:141-151 | the record gains the type dropdown's key holding the type UUID, and that whole record is posted; the result is the restaurant dropdown's options; the hidden fields take in the page's inputs on success |
| Scraper.Scraper.SetUrl | lounasvahti/services/scraper.py:153-157 | only the URL changes, and the record is saved |
| Scraper.Scraper.SetRestaurantType | lounasvahti/services/scraper.py:159-164 | only the type name and UUID change, and the record is saved |
| Scraper.Scraper.SetRestaurant | lounasvahti/services/scraper.py:166-179 | name and UUID are recorded, type and restaurant are posted; on success the endpoint becomes the final URL, the record is saved and the hidden fields take in the page's inputs; on failure nothing is saved |

## Left out

- Logging, and the `logging` calls' messages, are not modelled.
- Files, the clock and the network are inputs, because a model cannot perform them:
  - `date.today()` is a `today` parameter;
  - the data file's contents are an `Option<Record>` (`None` for a missing file or invalid JSON);
  - each HTTP exchange is answered by a `Reply` the caller passes in.
- HTML parsing (BeautifulSoup) is left out, because it is a foreign library. A page is the part of the document the scraper reads:
  - hidden inputs, grouped by container;
  - `<select>` elements;
  - day panels, with their header text and the stripped dish labels of each row, already stripped.
- An `<input>` missing its `name` or `value` attribute, or an `<option>` missing its `value` attribute, raises KeyError in the source. The model does not represent either.
- JSON values in the record are strings or null (`Option<string>`). Other JSON types are not modelled.
- The order of an option map's keys is not modelled. That is the order in which `get_restaurant_types` and `get_restaurants` list names, which `scripts/configure.py` shows as choices. The order of a form's fields is not modelled either. Of the dicts' insertion orders, only the menu's date order is.
- `session`, `state`, `url`, `temp_data`, `USER_AGENT` and the request headers are not modelled, because the core never reads them back.
- Scraper.MenuPayload: sends `ctl00$MainContent$DropDownListGetWeeks:` as the text "1". The source puts the integer 1 there, which form encoding sends as the same text.
- ParseFinnishExact: covers only spellings in ASCII digits. `strptime`'s `\d` in `%d` and `%Y` also matches other Unicode decimal digits (as in "01.01.２０２５"), which `int()` reads; the model rejects those.
- ParseIsoExact: covers only spellings in ASCII digits, for the same reason.
- DayFieldSpellings: the `[12]\d` alternative of `%d` also takes a non-ASCII decimal second digit. The model reads ASCII digits only.
- YearFieldSpelling: `\d\d\d\d` also matches non-ASCII decimal digits. The model reads ASCII digits only.
- FinnishDateToIsoExact: exact for ASCII-digit input only; a date written with other Unicode decimal digits converts in the source and raises in the model.
- WeekdayInFinnishExact: exact for ASCII-digit input only, for the same reason.
- Text.Lower: lowers only A to Z, Å, Ä and Ö, the capitals a first word can hold in this model. `str.lower` also lowers other non-ASCII letters, but no word holding one of them lowers to "tilaa" or "lopeta".
- `_load_data` error paths that raise are not modelled:
  - an unreadable file, such as one without read permission;
  - a file that is not valid UTF-8;
  - valid JSON that is not an object, where `data.get` raises AttributeError.
- A URL without a scheme makes `requests` raise before anything is sent. The model records such a request as sent and answers it with the reply passed in.
- Utils.IsoFormat: writes the year as four zero-padded digits. The platform quirk of `strftime("%Y")` for years below 1000 is not modelled.
- `re` patterns are written out for what the core uses. `\w` in `get_first_word` is taken as ASCII letters, digits and `_` (plus å, ä, ö, Å, Ä, Ö as written). The other Unicode letters `\w` matches are not modelled.
- Text.SplitLines: splits on "\n" only. `str.splitlines` also splits on "\r", "\r\n" and other Unicode separators, which are not modelled.
- `html.unescape` is a function parameter of `Utils.SanitizeComment`. Python's entity table is not modelled, so the model does not say which entities are replaced.
- `load_template` is not modelled, because it is only file I/O.
- `handle_DATA` up to the extracted text is not modelled: MIME decoding, `extract_text` and `strip_html`.
- The database and mail calls `handle_DATA` makes are not modelled, because they are outside this core: `get_meal_by_name`, `update_meal_comment`, `handle_subscription` and `handle_unsubscription`. The model stops at the `Action` it decides on.
- The "250 OK" reply of `handle_DATA` is not modelled.
- Asynchrony and concurrency are not modelled.
