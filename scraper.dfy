/**
 * lounasvahti/services/scraper.py: the `Scraper` session that walks an
 * ASP.NET lunch-menu site. It keeps a persisted selection record (`data`,
 * six fixed keys), replays the site's hidden form fields (`state_vars`) on
 * every POST, and turns the day panels of a menu page into an ordered map
 * from ISO date to menu items.
 *
 * HTML and HTTP are abstract here: a page is the part of the parsed document
 * the scraper reads (hidden inputs, select elements, day panels), and each
 * HTTP exchange is answered by a `Reply` the caller passes in.
 */
module Scraper {
  import opened Wrappers
  import opened Text
  import Utils
  import Calendar

  // ---------------------------------------------------------------------
  // Constants
  // ---------------------------------------------------------------------

  const RESTAURANT_TYPE_SELECT := "ctl00$MainContent$RestaurantTypeDropDownList"
  const RESTAURANT_SELECT := "ctl00$MainContent$RestaurantDropDownList"
  const LANGUAGE_SELECT := "ctl00$MainContent$LanguagesDropDownList"
  const WEEK_SELECT := "ctl00$MainContent$ShowMenuDropDownList"
  const LANGUAGE := "fi"
  const EVENT_TARGET := "__EVENTTARGET"
  const SCRIPT_MANAGER := "ctl00$ScriptManager1"
  const GET_WEEKS := "ctl00$MainContent$DropDownListGetWeeks:"

  /** The six keys of the selection record. */
  const KEYS: set<string> := {"url", "endpoint", "restaurant_type_name", "restaurant_type_uuid", "restaurant_name", "restaurant_uuid"}

  // ---------------------------------------------------------------------
  // Values
  // ---------------------------------------------------------------------

  /** A JSON object whose values are strings or null. */
  type Record = map<string, Option<string>>

  /** The fields of a form POST, by name; `None` is Python's `None`. */
  type Form = map<string, Option<string>>

  /** An `<input>` inside an `aspNetHidden` container. */
  datatype HiddenInput = HiddenInput(name: string, value: string)

  /** An `<option>` of a `<select>`: its text and its `value` attribute. */
  datatype SelectOption = SelectOption(text: string, value: string)

  datatype Select = Select(name: string, options: seq<SelectOption>)

  /**
   * A `DayDataPanel`: the stripped text of its header (`None` when the panel
   * has no header), and for each row the stripped texts of its dish labels.
   */
  datatype Panel = Panel(header: Option<string>, rows: seq<seq<string>>)

  /**
   * A parsed page: the hidden inputs of each `aspNetHidden` container, the
   * `<select>` elements and the day panels, all in document order.
   */
  datatype Page = Page(hidden: seq<seq<HiddenInput>>, selects: seq<Select>, panels: seq<Panel>)

  /** What the server answers to a request: nothing (a connection error), or a status, the final URL and the page. */
  datatype Reply = Unreachable | Reply(status: int, url: string, page: Page)

  /** A successful response: the final URL and the page. */
  datatype Response = Response(url: string, page: Page)

  /** A request handed to the HTTP session. */
  datatype Request = GetRequest(url: string) | PostRequest(url: string, form: Form)

  /** The exceptions the scraper lets escape. */
  datatype ScrapeError =
    | MissingUrl                 // the URL is None: requests refuses it before sending
    | ConnectionFailed           // requests raises a ConnectionError
    | HttpError(status: int)     // raise_for_status on a 4xx or 5xx status
    | NoSuchSelect(name: string) // soup.find found no such select: AttributeError
    | MissingHeader              // a day panel without a header: AttributeError
    | BadDate(error: Utils.Error) // finnish_date_to_iso raised

  // ---------------------------------------------------------------------
  // _load_data
  // ---------------------------------------------------------------------

  /**
   * `_load_data`: the six keys, each with its stored value, or `None` when
   * the record lacks it or there is no readable record at all.
   */
  function LoadData(stored: Option<Record>): (r: Record)
    ensures r.Keys == KEYS
    ensures forall k :: k in KEYS && stored.Some? && k in stored.value ==> r[k] == stored.value[k]
    ensures forall k :: k in KEYS && (stored.None? || k !in stored.value) ==> r[k] == None
  {
    map k | k in KEYS :: if stored.Some? && k in stored.value then stored.value[k] else None
  }

  /** A record that holds the six keys, saved and loaded again, comes back without any other key. */
  lemma LoadSaved(data: Record)
    requires KEYS <= data.Keys
    ensures LoadData(Some(data)) == map k | k in KEYS :: data[k]
    ensures data.Keys == KEYS ==> LoadData(Some(data)) == data
  {
  }

  /** Loading needs no six-key record: a missing file and an empty record load the same. */
  lemma LoadMissing()
    ensures LoadData(None) == LoadData(Some(map[]))
    ensures forall k :: k in KEYS ==> LoadData(None)[k] == None
  {
  }

  // ---------------------------------------------------------------------
  // _get_state_vars and the _post form
  // ---------------------------------------------------------------------

  /** The hidden inputs of a page, container after container. */
  function Flatten(hidden: seq<seq<HiddenInput>>): seq<HiddenInput> {
    if hidden == [] then [] else Flatten(hidden[..|hidden| - 1]) + hidden[|hidden| - 1]
  }

  /** `vars` after `vars[input.name] = input.value` for each input in turn. */
  function Overlay(vars: map<string, string>, inputs: seq<HiddenInput>): (r: map<string, string>)
    ensures r.Keys == vars.Keys + set i | i in inputs :: i.name
  {
    if inputs == [] then vars
    else
      var last := inputs[|inputs| - 1];
      var init := inputs[..|inputs| - 1];
      assert inputs == init + [last];
      Overlay(vars, init)[last.name := last.value]
  }

  /** The last of `inputs` that carries `name`, if any. */
  function LastNamed(inputs: seq<HiddenInput>, name: string): (r: Option<nat>)
    ensures r.Some? ==> r.value < |inputs| && inputs[r.value].name == name
    ensures r.Some? ==> forall j :: r.value < j < |inputs| ==> inputs[j].name != name
    ensures r.None? ==> forall j :: 0 <= j < |inputs| ==> inputs[j].name != name
  {
    if inputs == [] then None
    else if inputs[|inputs| - 1].name == name then Some(|inputs| - 1)
    else LastNamed(inputs[..|inputs| - 1], name)
  }

  /**
   * Hidden fields accumulate: a name on the page takes the value of its last
   * input there; every other name keeps its value, and none is removed.
   */
  lemma {:induction false} OverlayValues(vars: map<string, string>, inputs: seq<HiddenInput>, name: string)
    ensures LastNamed(inputs, name).Some? ==>
      name in Overlay(vars, inputs) && Overlay(vars, inputs)[name] == inputs[LastNamed(inputs, name).value].value
    ensures LastNamed(inputs, name).None? ==>
      (name in Overlay(vars, inputs) <==> name in vars) &&
      (name in vars ==> Overlay(vars, inputs)[name] == vars[name])
  {
    if inputs != [] {
      OverlayValues(vars, inputs[..|inputs| - 1], name);
    }
  }

  /** Overlaying two pages in turn is overlaying their inputs in turn. */
  lemma {:induction false} OverlayAppend(vars: map<string, string>, a: seq<HiddenInput>, b: seq<HiddenInput>)
    ensures Overlay(Overlay(vars, a), b) == Overlay(vars, a + b)
    decreases |b|
  {
    if b != [] {
      OverlayAppend(vars, a, b[..|b| - 1]);
      assert (a + b)[..|a + b| - 1] == a + b[..|b| - 1];
    } else {
      assert a + b == a;
    }
  }

  /** `{**self.state_vars, **data}`: the hidden fields overlaid by the caller's fields. */
  function MergeForm(vars: map<string, string>, fields: Form): (f: Form)
    ensures f.Keys == vars.Keys + fields.Keys
    ensures forall k :: k in fields ==> f[k] == fields[k]
    ensures forall k :: k in vars && k !in fields ==> f[k] == Some(vars[k])
  {
    map k | k in vars.Keys + fields.Keys :: if k in fields then fields[k] else Some(vars[k])
  }

  /** `response.raise_for_status()` and what follows it: a 4xx or 5xx status is an error. */
  function Check(reply: Reply): (r: Result<Response, ScrapeError>)
    ensures r.Err? <==> reply.Unreachable? || 400 <= reply.status < 600
    ensures r.Ok? ==> r.value == Response(reply.url, reply.page)
  {
    match reply
    case Unreachable => Err(ConnectionFailed)
    case Reply(status, url, page) =>
      if 400 <= status < 600 then Err(HttpError(status)) else Ok(Response(url, page))
  }

  // ---------------------------------------------------------------------
  // The option maps of get_restaurant_types and get_restaurants
  // ---------------------------------------------------------------------

  /** The position of the first select named `name`, the one `soup.find` returns. */
  function FindSelect(selects: seq<Select>, name: string): (r: Option<nat>)
    ensures r.Some? ==> r.value < |selects| && selects[r.value].name == name
    ensures r.Some? ==> forall j :: 0 <= j < r.value ==> selects[j].name != name
    ensures r.None? ==> forall j :: 0 <= j < |selects| ==> selects[j].name != name
  {
    if selects == [] then None
    else if selects[0].name == name then Some(0)
    else
      match FindSelect(selects[1..], name)
      case None => None
      case Some(i) => Some(i + 1)
  }

  /** `{option.text: option["value"] for option in options if option["value"]}`. */
  function OptionMap(options: seq<SelectOption>): (m: map<string, string>)
  {
    if options == [] then map[]
    else
      var last := options[|options| - 1];
      var m := OptionMap(options[..|options| - 1]);
      if last.value == [] then m else m[last.text := last.value]
  }

  /** The index of the last option labelled `text` with a non-empty value, if any. */
  function LastWith(options: seq<SelectOption>, text: string): (r: Option<nat>)
    ensures r.Some? ==> r.value < |options| && options[r.value].text == text && options[r.value].value != []
    ensures r.Some? ==> forall j :: r.value < j < |options| ==> options[j].text != text || options[j].value == []
    ensures r.None? ==> forall j :: 0 <= j < |options| ==> options[j].text != text || options[j].value == []
  {
    if options == [] then None
    else
      var last := options[|options| - 1];
      if last.text == text && last.value != [] then Some(|options| - 1)
      else
        var init := options[..|options| - 1];
        assert forall j :: 0 <= j < |init| ==> options[j] == init[j];
        LastWith(init, text)
  }

  /**
   * A text is in the map exactly when some option with a non-empty value has
   * it, and it maps to the value of the last such option.
   */
  lemma {:induction false} OptionMapSpec(options: seq<SelectOption>, text: string)
    ensures text in OptionMap(options) <==> LastWith(options, text).Some?
    ensures text in OptionMap(options) ==> OptionMap(options)[text] == options[LastWith(options, text).value].value
  {
    if options != [] {
      var init := options[..|options| - 1];
      OptionMapSpec(init, text);
      if LastWith(init, text).Some? {
        assert options[LastWith(init, text).value] == init[LastWith(init, text).value];
      }
    }
  }

  /** Options with an empty value, such as a "choose one" placeholder, never appear. */
  lemma OptionMapDropsEmpty(options: seq<SelectOption>)
    ensures forall t :: t in OptionMap(options) ==> OptionMap(options)[t] != []
  {
    forall t | t in OptionMap(options) ensures OptionMap(options)[t] != [] {
      OptionMapSpec(options, t);
    }
  }

  /** The options of the select named `name` as a map, or the error of a page without it. */
  function SelectOptions(page: Page, name: string): (r: Result<map<string, string>, ScrapeError>)
    ensures r.Err? <==> forall j :: 0 <= j < |page.selects| ==> page.selects[j].name != name
    ensures r.Err? ==> r.error == NoSuchSelect(name)
    ensures r.Ok? ==> forall i ::
      (0 <= i < |page.selects| && page.selects[i].name == name && forall j :: 0 <= j < i ==> page.selects[j].name != name)
      ==> r.value == OptionMap(page.selects[i].options)
  {
    match FindSelect(page.selects, name)
    case None => Err(NoSuchSelect(name))
    case Some(i) => Ok(OptionMap(page.selects[i].options))
  }

  // ---------------------------------------------------------------------
  // _find_menu_in_soup
  // ---------------------------------------------------------------------

  /** A Python dict from date to items: its keys in insertion order, and its contents. */
  datatype Menu = Menu(dates: seq<string>, items: map<string, seq<string>>)

  /** The dict's invariant: each key once, and the order lists exactly the keys. */
  ghost predicate WellFormed(m: Menu) {
    && (forall i, j :: 0 <= i < j < |m.dates| ==> m.dates[i] != m.dates[j])
    && (forall d :: d in m.items <==> d in m.dates)
  }

  /** `if d not in menu: menu[d] = []` followed by `menu[d].append(item)`. */
  function Add(m: Menu, d: string, item: string): Menu {
    if d in m.items then Menu(m.dates, m.items[d := m.items[d] + [item]])
    else Menu(m.dates + [d], m.items[d := [item]])
  }

  /** The date of a panel: `finnish_date_to_iso(header.get_text(strip=True)[3:])`. */
  function PanelDate(p: Panel): Result<string, ScrapeError> {
    match p.header
    case None => Err(MissingHeader)
    case Some(h) =>
      var text := if |h| <= 3 then "" else h[3..];
      match Utils.FinnishDateToIso(text)
      case Err(e) => Err(BadDate(e))
      case Ok(d) => Ok(d)
  }

  /**
   * A header of three leading characters and a date written `DD.MM.YYYY`
   * dates its panel with that date in ISO form; a panel without a header
   * raises.
   */
  lemma PanelDateOf(prefix: string, d: Calendar.Date, rows: seq<seq<string>>)
    requires |prefix| == 3 && Calendar.Valid(d)
    ensures PanelDate(Panel(Some(prefix + Utils.FinnishFormat(d)), rows)) == Ok(Utils.IsoFormat(d))
    ensures PanelDate(Panel(None, rows)) == Err(MissingHeader)
  {
    assert (prefix + Utils.FinnishFormat(d))[3..] == Utils.FinnishFormat(d);
    Utils.FinnishFormatAccepted(d);
  }

  /** `", ".join(...)` of a row's dish labels: the row's one menu item. */
  function RowItem(row: seq<string>): string {
    Join(row, ", ")
  }

  /** The items of a panel's rows, one per row. */
  function RowItems(rows: seq<seq<string>>): (r: seq<string>)
    ensures |r| == |rows|
  {
    if rows == [] then [] else RowItems(rows[..|rows| - 1]) + [RowItem(rows[|rows| - 1])]
  }

  lemma {:induction false} RowItemsSpec(rows: seq<seq<string>>)
    ensures forall i :: 0 <= i < |rows| ==> RowItems(rows)[i] == RowItem(rows[i])
  {
    if rows != [] {
      RowItemsSpec(rows[..|rows| - 1]);
    }
  }

  /** A panel together with the ISO date of its header. */
  datatype Day = Day(date: string, rows: seq<seq<string>>)

  /** How a panel is dated; the extraction uses `PanelDate`, and the facts below hold for any dating. */
  type Dating = Panel -> Result<string, ScrapeError>

  /** The panels with their dates, or the error of the first panel whose date fails. */
  function Days(date: Dating, panels: seq<Panel>): Result<seq<Day>, ScrapeError> {
    if panels == [] then Ok([])
    else
      match Days(date, panels[..|panels| - 1])
      case Err(e) => Err(e)
      case Ok(ds) =>
        var last := panels[|panels| - 1];
        match date(last)
        case Err(e) => Err(e)
        case Ok(d) => Ok(ds + [Day(d, last.rows)])
  }

  /** The menu after the rows of one panel, dated `d`, are added. */
  function AddRows(m: Menu, d: string, rows: seq<seq<string>>): Menu {
    if rows == [] then m else Add(AddRows(m, d, rows[..|rows| - 1]), d, RowItem(rows[|rows| - 1]))
  }

  /** The menu built from dated panels, panel after panel and row after row. */
  function Build(days: seq<Day>): Menu {
    if days == [] then Menu([], map[])
    else AddRows(Build(days[..|days| - 1]), days[|days| - 1].date, days[|days| - 1].rows)
  }

  /** What `_find_menu_in_soup` returns: the menu, or the error of the first panel whose date fails. */
  function Extract(panels: seq<Panel>): Result<Menu, ScrapeError> {
    match Days(PanelDate, panels)
    case Err(e) => Err(e)
    case Ok(ds) => Ok(Build(ds))
  }

  /** `_find_menu_in_soup`: the loop over the day panels. */
  method FindMenuInSoup(panels: seq<Panel>) returns (r: Result<Menu, ScrapeError>)
    ensures r == Extract(panels)
  {
    var menu := Menu([], map[]);
    ghost var days: seq<Day> := [];
    var i := 0;
    while i < |panels|
      invariant 0 <= i <= |panels|
      invariant Days(PanelDate, panels[..i]) == Ok(days)
      invariant menu == Build(days)
    {
      var panel := panels[i];
      var date := PanelDate(panel);
      if date.Err? {
        DaysStopAtError(PanelDate, panels, i);
        return Err(date.error);
      }
      DaysExtend(PanelDate, panels, i, days);
      BuildExtend(days, Day(date.value, panel.rows));
      menu := AddPanelRows(menu, date.value, panel.rows);
      days := days + [Day(date.value, panel.rows)];
      i := i + 1;
    }
    assert panels[..i] == panels;
    r := Ok(menu);
  }

  lemma DaysExtend(date: Dating, panels: seq<Panel>, i: nat, days: seq<Day>)
    requires i < |panels| && Days(date, panels[..i]) == Ok(days) && date(panels[i]).Ok?
    ensures Days(date, panels[..i + 1]) == Ok(days + [Day(date(panels[i]).value, panels[i].rows)])
  {
    assert panels[..i + 1][..i] == panels[..i];
  }

  lemma BuildExtend(days: seq<Day>, day: Day)
    ensures Build(days + [day]) == AddRows(Build(days), day.date, day.rows)
  {
    assert (days + [day])[..|days|] == days;
  }

  /** The inner loop of `_find_menu_in_soup`: each row of a panel becomes one item under its date. */
  method AddPanelRows(menu: Menu, d: string, rows: seq<seq<string>>) returns (m: Menu)
    ensures m == AddRows(menu, d, rows)
  {
    m := menu;
    var j := 0;
    while j < |rows|
      invariant 0 <= j <= |rows|
      invariant m == AddRows(menu, d, rows[..j])
    {
      assert rows[..j + 1][..j] == rows[..j];
      var item := RowItem(rows[j]);
      ghost var before := m;
      if d !in m.items {
        m := Menu(m.dates + [d], m.items[d := []]);
      }
      m := Menu(m.dates, m.items[d := m.items[d] + [item]]);
      assert [] + [item] == [item];
      assert m == Add(before, d, item);
      j := j + 1;
    }
    assert rows[..j] == rows;
  }

  /** A panel whose date fails ends the extraction with its error, whatever follows. */
  lemma {:induction false} DaysStopAtError(date: Dating, panels: seq<Panel>, i: nat)
    requires i < |panels| && Days(date, panels[..i]).Ok? && date(panels[i]).Err?
    ensures Days(date, panels) == Err(date(panels[i]).error)
    decreases |panels|
  {
    if |panels| > i + 1 {
      var init := panels[..|panels| - 1];
      assert init[..i] == panels[..i];
      DaysStopAtError(date, init, i);
    } else {
      assert panels[..|panels| - 1] == panels[..i];
    }
  }

  // ---------------------------------------------------------------------
  // Properties of the extracted menu
  // ---------------------------------------------------------------------

  /** The index of the first panel whose date fails, if any. */
  function FirstBadPanel(date: Dating, panels: seq<Panel>): (r: Option<nat>)
    ensures r.Some? ==> r.value < |panels| && date(panels[r.value]).Err?
    ensures r.Some? ==> forall j :: 0 <= j < r.value ==> date(panels[j]).Ok?
    ensures r.None? ==> forall j :: 0 <= j < |panels| ==> date(panels[j]).Ok?
  {
    if panels == [] then None
    else
      var init := panels[..|panels| - 1];
      match FirstBadPanel(date, init)
      case Some(i) =>
        assert panels[i] == init[i];
        Some(i)
      case None =>
        if date(panels[|panels| - 1]).Err? then Some(|panels| - 1)
        else
          assert forall j :: 0 <= j < |init| ==> panels[j] == init[j];
          None
  }

  /** `Days` fails exactly when some panel's date fails, and with the error of the first such panel. */
  lemma {:induction false} DaysFail(date: Dating, panels: seq<Panel>)
    ensures Days(date, panels).Err? <==> FirstBadPanel(date, panels).Some?
    ensures Days(date, panels).Err? ==> Days(date, panels).error == date(panels[FirstBadPanel(date, panels).value]).error
  {
    if panels != [] {
      var init := panels[..|panels| - 1];
      DaysFail(date, init);
      if FirstBadPanel(date, init).Some? {
        assert panels[FirstBadPanel(date, init).value] == init[FirstBadPanel(date, init).value];
      }
    }
  }

  /** The extraction fails exactly when some panel's header date fails, and with the error of the first such panel. */
  lemma ExtractFails(panels: seq<Panel>)
    ensures Extract(panels).Err? <==> FirstBadPanel(PanelDate, panels).Some?
    ensures Extract(panels).Err? ==> Extract(panels).error == PanelDate(panels[FirstBadPanel(PanelDate, panels).value]).error
  {
    DaysFail(PanelDate, panels);
  }

  /** When every date parses, there is one dated panel per panel, with that panel's date and rows. */
  lemma {:induction false} DaysSpec(date: Dating, panels: seq<Panel>, i: nat)
    requires Days(date, panels).Ok? && i < |panels|
    ensures |Days(date, panels).value| == |panels|
    ensures date(panels[i]).Ok? && Days(date, panels).value[i] == Day(date(panels[i]).value, panels[i].rows)
  {
    var init := panels[..|panels| - 1];
    if i < |init| {
      DaysSpec(date, init, i);
      assert panels[i] == init[i];
    } else if init != [] {
      DaysSpec(date, init, 0);
    }
  }

  /** The dates of the dated panels that have rows, in order, repeats included. */
  function RowDates(days: seq<Day>): seq<string> {
    if days == [] then []
    else
      var last := days[|days| - 1];
      RowDates(days[..|days| - 1]) + (if last.rows != [] then [last.date] else [])
  }

  /** The items of the dated panels whose date is `d`, panel after panel and row after row. */
  function ItemsFor(days: seq<Day>, d: string): seq<string> {
    if days == [] then []
    else
      var last := days[|days| - 1];
      ItemsFor(days[..|days| - 1], d) + (if last.date == d then RowItems(last.rows) else [])
  }

  /** `s` without repeats, each element where it first occurs. */
  function Dedup(s: seq<string>): (r: seq<string>)
    ensures forall x :: x in r <==> x in s
    ensures forall i, j :: 0 <= i < j < |r| ==> r[i] != r[j]
  {
    if s == [] then []
    else
      var r := Dedup(s[..|s| - 1]);
      assert forall x :: x in s <==> x in s[..|s| - 1] || x == s[|s| - 1];
      if s[|s| - 1] in r then r else r + [s[|s| - 1]]
  }

  lemma DedupSnoc(s: seq<string>, x: string)
    ensures Dedup(s + [x]) == if x in s then Dedup(s) else Dedup(s) + [x]
  {
    assert (s + [x])[..|s|] == s;
  }

  /** Adding a panel's rows keeps the dict well formed and adds its date last, once, only if it has rows and is new. */
  lemma {:induction false} AddRowsDates(m: Menu, d: string, rows: seq<seq<string>>)
    requires WellFormed(m)
    ensures WellFormed(AddRows(m, d, rows))
    ensures AddRows(m, d, rows).dates == if rows == [] || d in m.items then m.dates else m.dates + [d]
    decreases |rows|
  {
    if rows != [] {
      AddRowsDates(m, d, rows[..|rows| - 1]);
    }
  }

  /** Adding a panel's rows appends their items under its date and leaves every other date alone. */
  lemma {:induction false} AddRowsItems(m: Menu, d: string, rows: seq<seq<string>>, e: string)
    ensures e != d ==> (e in AddRows(m, d, rows).items <==> e in m.items)
    ensures e != d && e in m.items ==> AddRows(m, d, rows).items[e] == m.items[e]
    ensures e == d ==> (e in AddRows(m, d, rows).items <==> e in m.items || rows != [])
    ensures e == d && e in AddRows(m, d, rows).items ==>
      AddRows(m, d, rows).items[e] == (if e in m.items then m.items[e] else []) + RowItems(rows)
    decreases |rows|
  {
    if rows != [] {
      AddRowsItems(m, d, rows[..|rows| - 1], e);
    }
  }

  /**
   * The menu's dates are the dates of the panels that have rows, each once,
   * in the order they first occur; a panel without rows adds no date.
   */
  lemma {:induction false} BuildDates(days: seq<Day>)
    ensures WellFormed(Build(days))
    ensures Build(days).dates == Dedup(RowDates(days))
  {
    if days != [] {
      var init := days[..|days| - 1];
      var last := days[|days| - 1];
      BuildDates(init);
      AddRowsDates(Build(init), last.date, last.rows);
      if last.rows == [] {
        assert RowDates(days) == RowDates(init) + [];
        assert RowDates(init) + [] == RowDates(init);
      } else {
        DedupSnoc(RowDates(init), last.date);
      }
    }
  }

  /**
   * Under each date, the items of every row of every panel with that date,
   * one item per row, panel after panel and row after row; no other date is a key.
   */
  lemma {:induction false} BuildItems(days: seq<Day>, d: string)
    ensures d in Build(days).items <==> d in RowDates(days)
    ensures d in Build(days).items ==> Build(days).items[d] == ItemsFor(days, d)
    ensures d !in Build(days).items ==> ItemsFor(days, d) == []
  {
    if days != [] {
      var init := days[..|days| - 1];
      var last := days[|days| - 1];
      BuildItems(init, d);
      AddRowsItems(Build(init), last.date, last.rows, d);
    }
  }

  // ---------------------------------------------------------------------
  // The payload of get_menu
  // ---------------------------------------------------------------------

  const HEADER_LIST := "ctl00$MainContent$RestaurantDateRangesFilterHeadersDataList"
  const HEADER_LINK := "RestaurantDateRangesFilterHeadersLinkButton"
  const UPDATE_PANEL := "ctl00$MasterUpdatePanel|"

  /** The item of the week-header list that `get_menu` clicks: `$ctl01$` for this week, `$ctl02$` for the next. */
  function WeekItem(thisWeek: bool): string {
    if thisWeek then "$ctl01$" else "$ctl02$"
  }

  /** The link button behind the week header. */
  function WeekButton(thisWeek: bool): string {
    HEADER_LIST + WeekItem(thisWeek) + HEADER_LINK
  }

  /** The fields `get_menu` posts for the selection in `data`. */
  function MenuPayload(thisWeek: bool, data: Record): (f: Form)
    requires "restaurant_type_uuid" in data && "restaurant_uuid" in data
  {
    map[
      RESTAURANT_TYPE_SELECT := data["restaurant_type_uuid"],
      RESTAURANT_SELECT := data["restaurant_uuid"],
      LANGUAGE_SELECT := Some(LANGUAGE),
      WEEK_SELECT := Some(if thisWeek then "0" else "1"),
      EVENT_TARGET := Some(WeekButton(thisWeek)),
      SCRIPT_MANAGER := Some(UPDATE_PANEL + WeekButton(thisWeek)),
      GET_WEEKS := Some("1")
    ]
  }

  lemma OccursBetween(a: string, w: string, c: string)
    ensures OccursAt(a + w + c, w, |a|) && Contains(a + w + c, w)
  {
    var s := a + w + c;
    assert s[|a|..|a| + |w|] == w;
    assert OccursAt(s, w, |a|);
  }

  /** The payload carries the selected type, the selected restaurant, the language "fi" and the week's number. */
  lemma MenuPayloadFields(thisWeek: bool, data: Record)
    requires "restaurant_type_uuid" in data && "restaurant_uuid" in data
    ensures var f := MenuPayload(thisWeek, data);
      && f.Keys == {RESTAURANT_TYPE_SELECT, RESTAURANT_SELECT, LANGUAGE_SELECT, WEEK_SELECT, EVENT_TARGET, SCRIPT_MANAGER, GET_WEEKS}
      && f[RESTAURANT_TYPE_SELECT] == data["restaurant_type_uuid"]
      && f[RESTAURANT_SELECT] == data["restaurant_uuid"]
      && f[LANGUAGE_SELECT] == Some("fi")
      && f[WEEK_SELECT] == Some(if thisWeek then "0" else "1")
  {
  }

  /**
   * Both the event target and the script manager field name the header item
   * of the chosen week: `$ctl01$` for this week, `$ctl02$` for the next.
   */
  lemma MenuPayloadButton(thisWeek: bool, data: Record)
    requires "restaurant_type_uuid" in data && "restaurant_uuid" in data
    ensures var f := MenuPayload(thisWeek, data);
      && f[EVENT_TARGET].Some? && Contains(f[EVENT_TARGET].value, if thisWeek then "$ctl01$" else "$ctl02$")
      && f[SCRIPT_MANAGER].Some? && Contains(f[SCRIPT_MANAGER].value, if thisWeek then "$ctl01$" else "$ctl02$")
      && StartsWith(f[SCRIPT_MANAGER].value, "ctl00$MasterUpdatePanel|")
  {
    var w := WeekItem(thisWeek);
    OccursBetween(HEADER_LIST, w, HEADER_LINK);
    assert UPDATE_PANEL + WeekButton(thisWeek) == (UPDATE_PANEL + HEADER_LIST) + w + HEADER_LINK;
    OccursBetween(UPDATE_PANEL + HEADER_LIST, w, HEADER_LINK);
    assert (UPDATE_PANEL + WeekButton(thisWeek))[..|UPDATE_PANEL|] == UPDATE_PANEL;
  }

  /** The two weeks' payloads differ in the three week fields only. */
  lemma MenuPayloadsDiffer(data: Record, key: string)
    requires "restaurant_type_uuid" in data && "restaurant_uuid" in data
    ensures MenuPayload(true, data).Keys == MenuPayload(false, data).Keys
    ensures key in MenuPayload(true, data) ==>
      (MenuPayload(true, data)[key] != MenuPayload(false, data)[key] <==> key in {WEEK_SELECT, EVENT_TARGET, SCRIPT_MANAGER})
  {
    var k := |HEADER_LIST| + 5;
    assert WeekButton(true)[k] == '1' && WeekButton(false)[k] == '2';
    assert (UPDATE_PANEL + WeekButton(true))[|UPDATE_PANEL| + k] == '1';
    assert (UPDATE_PANEL + WeekButton(false))[|UPDATE_PANEL| + k] == '2';
  }

  /**
   * The hidden fields once `reply` has answered a request: a successful
   * page's hidden inputs are written over them, a failure leaves them.
   * Nothing is ever removed.
   */
  function AfterReply(vars: map<string, string>, reply: Reply): (r: map<string, string>)
    ensures vars.Keys <= r.Keys
    ensures Check(reply).Err? ==> r == vars
  {
    match Check(reply)
    case Ok(response) => Overlay(vars, Flatten(response.page.hidden))
    case Err(_) => vars
  }

  // ---------------------------------------------------------------------
  // The session
  // ---------------------------------------------------------------------

  class Scraper {
    /** The selection record (`self.data`). */
    var data: Record
    /** The hidden ASP.NET fields replayed on every POST (`self.state_vars`). */
    var stateVars: map<string, string>
    /** What the data file holds, as far as it is valid JSON. */
    var file: Option<Record>
    /** The requests handed to the HTTP session, oldest first. */
    var sent: seq<Request>

    /** The record has its six keys, and at most the type dropdown's key besides. */
    predicate Valid()
      reads this
    {
      KEYS <= data.Keys <= KEYS + {RESTAURANT_TYPE_SELECT}
    }

    /** `Scraper()`: the record loaded from what the data file holds; no hidden fields, nothing sent. */
    constructor(stored: Option<Record>)
      ensures Valid()
      ensures data == LoadData(stored)
      ensures stateVars == map[] && sent == [] && file == stored
    {
      data := LoadData(stored);
      stateVars := map[];
      file := stored;
      sent := [];
    }

    /** `_save_data`. */
    method SaveData()
      modifies this`file
      ensures file == Some(data)
    {
      file := Some(data);
    }

    /** `_get_state_vars`: each hidden input, container by container, writes its value under its name. */
    method UpdateStateVars(hidden: seq<seq<HiddenInput>>)
      modifies this`stateVars
      ensures stateVars == Overlay(old(stateVars), Flatten(hidden))
    {
      var i := 0;
      while i < |hidden|
        invariant 0 <= i <= |hidden|
        invariant stateVars == Overlay(old(stateVars), Flatten(hidden[..i]))
      {
        assert hidden[..i + 1][..i] == hidden[..i];
        ghost var before := stateVars;
        var fieldset := hidden[i];
        var j := 0;
        while j < |fieldset|
          invariant 0 <= j <= |fieldset|
          invariant stateVars == Overlay(before, fieldset[..j])
        {
          assert fieldset[..j + 1][..j] == fieldset[..j];
          stateVars := stateVars[fieldset[j].name := fieldset[j].value];
          j := j + 1;
        }
        assert fieldset[..j] == fieldset;
        OverlayAppend(old(stateVars), Flatten(hidden[..i]), fieldset);
        i := i + 1;
      }
      assert hidden[..i] == hidden;
    }

    /** `_get`: send a GET, fail on a 4xx or 5xx status, else take the page's hidden fields. */
    method Get(url: Option<string>, reply: Reply) returns (r: Result<Response, ScrapeError>)
      modifies this`stateVars, this`sent
      ensures r == (if url.None? then Err(MissingUrl) else Check(reply))
      ensures sent == old(sent) + (if url.None? then [] else [GetRequest(url.value)])
      ensures stateVars == if r.Ok? then Overlay(old(stateVars), Flatten(r.value.page.hidden)) else old(stateVars)
    {
      if url.None? {
        return Err(MissingUrl);
      }
      sent := sent + [GetRequest(url.value)];
      r := Check(reply);
      if r.Ok? {
        UpdateStateVars(r.value.page.hidden);
      }
    }

    /** `_post`: send the hidden fields overlaid by `fields`, fail on a 4xx or 5xx status, else take the page's hidden fields. */
    method Post(url: Option<string>, fields: Form, reply: Reply) returns (r: Result<Response, ScrapeError>)
      modifies this`stateVars, this`sent
      ensures r == (if url.None? then Err(MissingUrl) else Check(reply))
      ensures sent == old(sent) + (if url.None? then [] else [PostRequest(url.value, MergeForm(old(stateVars), fields))])
      ensures stateVars == if r.Ok? then Overlay(old(stateVars), Flatten(r.value.page.hidden)) else old(stateVars)
    {
      var form := MergeForm(stateVars, fields);
      if url.None? {
        return Err(MissingUrl);
      }
      sent := sent + [PostRequest(url.value, form)];
      r := Check(reply);
      if r.Ok? {
        UpdateStateVars(r.value.page.hidden);
      }
    }

    /**
     * `get_menu`: GET the endpoint, POST the week's payload to it, and read
     * the menu from the answer. `first` and `second` answer the two requests.
     */
    method GetMenu(thisWeek: bool, first: Reply, second: Reply) returns (r: Result<Menu, ScrapeError>)
      requires Valid()
      modifies this`stateVars, this`sent
      ensures Valid() && data == old(data) && file == old(file)
      ensures var url := old(data)["endpoint"];
        r == if url.None? then Err(MissingUrl)
             else if Check(first).Err? then Err(Check(first).error)
             else if Check(second).Err? then Err(Check(second).error)
             else Extract(Check(second).value.page.panels)
      ensures var url := old(data)["endpoint"];
        sent == old(sent) + (if url.None? then [] else
          [GetRequest(url.value)] +
          (if Check(first).Err? then [] else
            [PostRequest(url.value, MergeForm(Overlay(old(stateVars), Flatten(Check(first).value.page.hidden)), MenuPayload(thisWeek, old(data))))]))
      ensures var url := old(data)["endpoint"];
        stateVars == if url.None? || Check(first).Err? then old(stateVars)
                     else AfterReply(AfterReply(old(stateVars), first), second)
    {
      var url := data["endpoint"];
      var got := Get(url, first);
      if got.Err? {
        return Err(got.error);
      }
      var payload := MenuPayload(thisWeek, data);
      var posted := Post(url, payload, second);
      if posted.Err? {
        return Err(posted.error);
      }
      r := FindMenuInSoup(posted.value.page.panels);
    }

    /** `get_restaurant_types`: GET the site and read the restaurant-type dropdown. */
    method GetRestaurantTypes(reply: Reply) returns (r: Result<map<string, string>, ScrapeError>)
      requires Valid()
      modifies this`stateVars, this`sent
      ensures Valid() && data == old(data) && file == old(file)
      ensures var url := old(data)["url"];
        r == if url.None? then Err(MissingUrl)
             else if Check(reply).Err? then Err(Check(reply).error)
             else SelectOptions(Check(reply).value.page, RESTAURANT_TYPE_SELECT)
      ensures var url := old(data)["url"];
        sent == old(sent) + (if url.None? then [] else [GetRequest(url.value)])
      ensures stateVars == if old(data)["url"].None? then old(stateVars) else AfterReply(old(stateVars), reply)
    {
      var got := Get(data["url"], reply);
      if got.Err? {
        return Err(got.error);
      }
      var selects := got.value.page.selects;
      var i := FindSelect(selects, RESTAURANT_TYPE_SELECT);
      if i.None? {
        return Err(NoSuchSelect(RESTAURANT_TYPE_SELECT));
      }
      r := Ok(OptionMap(selects[i.value].options));
    }

    /**
     * `get_restaurants`: copy the selected type's UUID into the record under
     * the type dropdown's name (the record is the very dict it posts), POST
     * the whole record, and read the restaurant dropdown.
     */
    method GetRestaurants(reply: Reply) returns (r: Result<map<string, string>, ScrapeError>)
      requires Valid()
      modifies this`data, this`stateVars, this`sent
      ensures Valid() && file == old(file)
      ensures data == old(data)[RESTAURANT_TYPE_SELECT := old(data)["restaurant_type_uuid"]]
      ensures var url := old(data)["url"];
        r == if url.None? then Err(MissingUrl)
             else if Check(reply).Err? then Err(Check(reply).error)
             else SelectOptions(Check(reply).value.page, RESTAURANT_SELECT)
      ensures var url := old(data)["url"];
        sent == old(sent) + (if url.None? then [] else [PostRequest(url.value, MergeForm(old(stateVars), data))])
      ensures stateVars == if old(data)["url"].None? then old(stateVars) else AfterReply(old(stateVars), reply)
    {
      var url := data["url"];
      var typeUuid := data["restaurant_type_uuid"];
      data := data[RESTAURANT_TYPE_SELECT := typeUuid];
      var posted := Post(url, data, reply);
      if posted.Err? {
        return Err(posted.error);
      }
      var selects := posted.value.page.selects;
      var i := FindSelect(selects, RESTAURANT_SELECT);
      if i.None? {
        return Err(NoSuchSelect(RESTAURANT_SELECT));
      }
      r := Ok(OptionMap(selects[i.value].options));
    }

    /** `set_url`: record the URL and save; nothing else in the record changes. */
    method SetUrl(url: string)
      requires Valid()
      modifies this`data, this`file
      ensures Valid()
      ensures data == old(data)["url" := Some(url)]
      ensures file == Some(data)
    {
      data := data["url" := Some(url)];
      SaveData();
    }

    /** `set_restaurant_type`: record the type's name and UUID and save; nothing else in the record changes. */
    method SetRestaurantType(name: string, uuid: string)
      requires Valid()
      modifies this`data, this`file
      ensures Valid()
      ensures data == old(data)["restaurant_type_name" := Some(name)]["restaurant_type_uuid" := Some(uuid)]
      ensures file == Some(data)
    {
      data := data["restaurant_type_name" := Some(name)];
      data := data["restaurant_type_uuid" := Some(uuid)];
      SaveData();
    }

    /**
     * `set_restaurant`: record the restaurant's name and UUID, POST the type
     * and the restaurant to the site, and record the final URL of the answer
     * as the endpoint before saving. When the POST fails, the name and UUID
     * stay recorded in memory but nothing is saved.
     */
    method SetRestaurant(name: string, uuid: string, reply: Reply) returns (r: Result<(), ScrapeError>)
      requires Valid()
      modifies this`data, this`file, this`stateVars, this`sent
      ensures Valid()
      ensures var selected := old(data)["restaurant_name" := Some(name)]["restaurant_uuid" := Some(uuid)];
        var url := old(data)["url"];
        var fields := map[RESTAURANT_TYPE_SELECT := old(data)["restaurant_type_uuid"], RESTAURANT_SELECT := Some(uuid)];
        && sent == old(sent) + (if url.None? then [] else [PostRequest(url.value, MergeForm(old(stateVars), fields))])
        && (if url.None? then r == Err(MissingUrl) && data == selected && file == old(file)
            else if Check(reply).Err? then r == Err(Check(reply).error) && data == selected && file == old(file)
            else r == Ok(()) && data == selected["endpoint" := Some(Check(reply).value.url)] && file == Some(data))
      ensures stateVars == if old(data)["url"].None? then old(stateVars) else AfterReply(old(stateVars), reply)
    {
      data := data["restaurant_name" := Some(name)];
      data := data["restaurant_uuid" := Some(uuid)];
      var fields := map[RESTAURANT_TYPE_SELECT := data["restaurant_type_uuid"], RESTAURANT_SELECT := data["restaurant_uuid"]];
      var posted := Post(data["url"], fields, reply);
      if posted.Err? {
        return Err(posted.error);
      }
      data := data["endpoint" := Some(posted.value.url)];
      SaveData();
      r := Ok(());
    }
  }
}
