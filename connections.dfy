/** One connection record of the schedule service's response, as decoded from
    JSON, and the thirteen display strings derived from it for one row of the
    results table (aikatauluhaku-gui.py, lines 94-114).

    A JSON value is kept as the text Python's `str()` gives it: a JSON string
    as itself (`Text`), any other value as its rendering (`Other`), so that
    the one place where the kind matters (`str.join`, which refuses a
    non-string) is exact. A missing key is `None`. */
module Connections {
  import opened Wrappers
  import opened IsoTime

  datatype Scalar = Text(text: string) | Other(rendered: string)

  /** Python's `str()` of the value. */
  function Str(v: Scalar): string {
    match v
    case Text(s) => s
    case Other(r) => r
  }

  datatype Place = Place(dateTime: Option<Scalar>)

  datatype Company = Company(name: Option<Scalar>)

  datatype Service = Service(service: Option<Scalar>)

  datatype Line = Line(number: Option<Scalar>, departureType: Option<Scalar>, name: Option<Scalar>,
                       daysOfOperationLong: Option<Scalar>, validityPeriod: Option<Scalar>,
                       lengthKm: Option<Scalar>, services: Option<seq<Service>>)

  datatype Connection = Connection(fromPlace: Option<Place>, toPlace: Option<Place>,
                                   duration: Option<Scalar>, adultPrice: Option<Scalar>,
                                   companies: Option<seq<Company>>, line: Option<Line>)

  /** The exceptions the derivation can raise: a missing key (`KeyError`), a
      timestamp `fromisoformat` rejects (`ValueError`), a value of the wrong
      kind for `fromisoformat` or `str.join` (`TypeError`). */
  datatype Fault = KeyError(key: string) | ValueError(text: string) | TypeError

  const NotAvailable := "N/A"
  const Currency := "€"
  const ServiceSeparator := ", "
  /** The column count the results table is created with. */
  const Columns := 13

  /** The strings of one results row, in column order. */
  datatype DisplayRow = DisplayRow(date: string, departure: string, arrival: string, duration: string,
                                   price: string, company: string, number: string, departureType: string,
                                   name: string, daysOfOperation: string, validity: string,
                                   lengthKm: string, services: string)
  {
    /** The row as the table's columns 0 to 12. */
    function Cells(): (r: seq<string>)
      ensures |r| == Columns
    {
      [date, departure, arrival, duration, price, company, number,
       departureType, name, daysOfOperation, validity, lengthKm, services]
    }
  }

  /** The exception `datetime.fromisoformat(v)` raises, if any. */
  function StampFault(v: Scalar): Option<Fault> {
    match v
    case Other(_) => Some(TypeError)
    case Text(s) => if Parse(s).None? then Some(ValueError(s)) else None
  }

  /** `str(d.get(key, 'N/A'))`. */
  function OrNotAvailable(v: Option<Scalar>): string {
    Str(v.GetOr(Text(NotAvailable)))
  }

  /** Column 4: `hinta = connection.get('adultPrice', 'N/A')`, shown as
      `f"{hinta}€"` unless `hinta` equals the string 'N/A'. */
  function PriceCell(v: Option<Scalar>): (r: string)
    ensures r == NotAvailable <==> v.None? || v == Some(Text(NotAvailable))
    ensures r != NotAvailable ==> v.Some? && |r| > 0 && r[..|r| - 1] == Str(v.value) && r[|r| - 1] == '€'
  {
    var price := v.GetOr(Text(NotAvailable));
    if price == Text(NotAvailable) then NotAvailable
    else
      var r := Str(price) + Currency;
      assert r[|r| - 1] != NotAvailable[2];
      r
  }

  /** `service.get('service', '')` is a string `str.join` accepts. */
  predicate JoinableService(s: Service) {
    !(s.service.Some? && s.service.value.Other?)
  }

  /** The part one service entry contributes: its text, or "" without one. */
  function ServicePart(s: Service): string {
    Str(s.service.GetOr(Text("")))
  }

  /** The list comprehension of line 114: one part per entry, none skipped. */
  function ServiceParts(services: seq<Service>): seq<string> {
    seq(|services|, i requires 0 <= i < |services| => ServicePart(services[i]))
  }

  /** Python's `separator.join(parts)`. */
  function Join(parts: seq<string>, separator: string): string {
    if |parts| == 0 then ""
    else if |parts| == 1 then parts[0]
    else Join(parts[..|parts| - 1], separator) + separator + parts[|parts| - 1]
  }

  function TotalLength(parts: seq<string>): nat {
    if parts == [] then 0 else TotalLength(parts[..|parts| - 1]) + |parts[|parts| - 1]|
  }

  /** A join is as long as its parts together with one separator between neighbours. */
  lemma {:induction false} JoinLength(parts: seq<string>, separator: string)
    requires |parts| > 0
    ensures |Join(parts, separator)| == TotalLength(parts) + (|parts| - 1) * |separator|
  {
    if |parts| > 1 {
      JoinLength(parts[..|parts| - 1], separator);
    } else {
      assert parts[..0] == [];
    }
  }

  /** Cut anywhere between two parts, a join is the join of the parts
      before the cut, one separator, and the join of the parts after it. */
  lemma {:induction false} JoinSplit(parts: seq<string>, separator: string, k: nat)
    requires 0 < k < |parts|
    ensures Join(parts, separator) == Join(parts[..k], separator) + separator + Join(parts[k..], separator)
  {
    var init, last := parts[..|parts| - 1], parts[|parts| - 1];
    if k == |parts| - 1 {
      assert parts[..k] == init;
      assert parts[k..] == [last];
    } else {
      JoinSplit(init, separator, k);
      assert init[..k] == parts[..k];
      var tail := parts[k..];
      assert tail[..|tail| - 1] == init[k..];
      assert tail[|tail| - 1] == last;
      assert Join(tail, separator) == Join(init[k..], separator) + separator + last;
    }
  }

  /** A join begins with its first part, followed by a separator when more parts follow. */
  lemma JoinStartsWith(parts: seq<string>, separator: string)
    requires |parts| > 0
    ensures var j, n := Join(parts, separator), |parts[0]|;
      n <= |j| && j[..n] == parts[0] &&
      (|parts| > 1 ==> n + |separator| <= |j| && j[n..n + |separator|] == separator)
  {
    if |parts| > 1 {
      JoinSplit(parts, separator, 1);
      assert parts[..1] == [parts[0]];
    }
  }

  /** Part i of a join sits after the parts before it, each followed by a
      separator, and is itself followed by a separator unless it is last. */
  lemma PartInJoin(parts: seq<string>, separator: string, i: nat)
    requires i < |parts|
    ensures var j, at, n := Join(parts, separator), TotalLength(parts[..i]) + i * |separator|, |parts[i]|;
      at + n <= |j| && j[at..at + n] == parts[i] &&
      (i + 1 < |parts| ==> at + n + |separator| <= |j| && j[at + n..at + n + |separator|] == separator)
  {
    if i == 0 {
      JoinStartsWith(parts, separator);
      assert parts[..0] == [];
    } else {
      LaterPartInJoin(parts, separator, i);
    }
  }

  lemma LaterPartInJoin(parts: seq<string>, separator: string, i: nat)
    requires 0 < i < |parts|
    ensures var j, at, n := Join(parts, separator), TotalLength(parts[..i]) + i * |separator|, |parts[i]|;
      at + n <= |j| && j[at..at + n] == parts[i] &&
      (i + 1 < |parts| ==> at + n + |separator| <= |j| && j[at + n..at + n + |separator|] == separator)
  {
    hide Join, TotalLength;
    var head, tail := Join(parts[..i], separator) + separator, Join(parts[i..], separator);
    JoinStartsWith(parts[i..], separator);
    JoinSplit(parts, separator, i);
    JoinPartOffset(parts, separator, i);
    assert parts[i..][0] == parts[i];
    AfterPrefix(Join(parts, separator), TotalLength(parts[..i]) + i * |separator|, head, tail, parts[i], separator,
                i + 1 < |parts|);
  }

  /** The parts before part i, with a separator after each, take up its offset. */
  lemma JoinPartOffset(parts: seq<string>, separator: string, i: nat)
    requires 0 < i <= |parts|
    ensures |Join(parts[..i], separator) + separator| == TotalLength(parts[..i]) + i * |separator|
  {
    JoinLength(parts[..i], separator);
    MultipleStep(i, |separator|);
  }

  lemma MultipleStep(i: nat, k: nat)
    requires i > 0
    ensures (i - 1) * k + k == i * k
  {
  }

  /** What a text starts with, it still holds after any prefix. */
  lemma AfterPrefix(j: string, at: nat, head: string, tail: string, part: string, separator: string, more: bool)
    requires j == head + tail && at == |head|
    requires |part| <= |tail| && tail[..|part|] == part
    requires more ==> |part| + |separator| <= |tail| && tail[|part|..|part| + |separator|] == separator
    ensures at + |part| <= |j| && j[at..at + |part|] == part
    ensures more ==> at + |part| + |separator| <= |j| && j[at + |part|..at + |part| + |separator|] == separator
  {
    assert j[at..at + |part|] == tail[..|part|];
    if more {
      assert j[at + |part|..at + |part| + |separator|] == tail[|part|..|part| + |separator|];
    }
  }

  /** With a non-empty separator, a join is empty exactly when there is no
      part, or a single empty one. */
  lemma JoinIsEmpty(parts: seq<string>, separator: string)
    requires separator != ""
    ensures Join(parts, separator) == "" <==> |parts| == 0 || (|parts| == 1 && parts[0] == "")
  {
  }

  /** The exception lines 94-114 raise first for this connection, if any, in
      the order the source evaluates them: the two `dateTime` lookups, the two
      `fromisoformat` calls, `duration`, `companies` and the first company's
      `name`, `line`, and finally `str.join` over the services. */
  function FirstFault(c: Connection): Option<Fault> {
    if c.fromPlace.None? then Some(KeyError("fromPlace"))
    else if c.fromPlace.value.dateTime.None? then Some(KeyError("dateTime"))
    else if c.toPlace.None? then Some(KeyError("toPlace"))
    else if c.toPlace.value.dateTime.None? then Some(KeyError("dateTime"))
    else if StampFault(c.fromPlace.value.dateTime.value).Some? then StampFault(c.fromPlace.value.dateTime.value)
    else if StampFault(c.toPlace.value.dateTime.value).Some? then StampFault(c.toPlace.value.dateTime.value)
    else if c.duration.None? then Some(KeyError("duration"))
    else if c.companies.None? then Some(KeyError("companies"))
    else if |c.companies.value| > 0 && c.companies.value[0].name.None? then Some(KeyError("name"))
    else if c.line.None? then Some(KeyError("line"))
    else if exists i :: 0 <= i < |c.line.value.services.GetOr([])| &&
                       !JoinableService(c.line.value.services.GetOr([])[i]) then Some(TypeError)
    else None
  }

  /** Lines 94-95 find both timestamps. */
  predicate PlacesPresent(c: Connection) {
    c.fromPlace.Some? && c.fromPlace.value.dateTime.Some? && c.toPlace.Some? && c.toPlace.value.dateTime.Some?
  }

  function Departure(c: Connection): Scalar
    requires PlacesPresent(c)
  {
    c.fromPlace.value.dateTime.value
  }

  function Arrival(c: Connection): Scalar
    requires PlacesPresent(c)
  {
    c.toPlace.value.dateTime.value
  }

  /** Lines 98-99 read both timestamps. */
  predicate StampsParse(c: Connection) {
    PlacesPresent(c) &&
    Departure(c).Text? && Parse(Departure(c).text).Some? &&
    Arrival(c).Text? && Parse(Arrival(c).text).Some?
  }

  /** Lines 105-113 find every key they look up without a default. */
  predicate FieldsPresent(c: Connection) {
    StampsParse(c) && c.duration.Some? &&
    c.companies.Some? && (|c.companies.value| > 0 ==> c.companies.value[0].name.Some?) &&
    c.line.Some?
  }

  /** The connection fields that every row needs and that no default covers,
      stated as one condition. */
  predicate WellFormed(c: Connection) {
    FieldsPresent(c) &&
    forall s :: s in c.line.value.services.GetOr([]) ==> JoinableService(s)
  }

  /** Lines 101-114 and 116-128 for a connection that raises nothing. */
  function RowOf(c: Connection): DisplayRow
    requires FirstFault(c).None?
  {
    var departure := Parse(c.fromPlace.value.dateTime.value.text).value;
    var arrival := Parse(c.toPlace.value.dateTime.value.text).value;
    var companies := c.companies.value;
    var line := c.line.value;
    DisplayRow(DateText(departure), ClockText(departure), ClockText(arrival), Str(c.duration.value),
               PriceCell(c.adultPrice),
               if |companies| > 0 then Str(companies[0].name.value) else NotAvailable,
               OrNotAvailable(line.number), OrNotAvailable(line.departureType), OrNotAvailable(line.name),
               OrNotAvailable(line.daysOfOperationLong), OrNotAvailable(line.validityPeriod),
               OrNotAvailable(line.lengthKm), Join(ServiceParts(line.services.GetOr([])), ServiceSeparator))
  }

  /** One connection's row (lines 94-114), or the exception its derivation raises first. */
  function RowFor(c: Connection): Result<DisplayRow, Fault> {
    match FirstFault(c)
    case Some(f) => Err(f)
    case None => Ok(RowOf(c))
  }

  /** A row is derived exactly when the connection is well formed; otherwise
      the derivation raises. */
  lemma RowForSucceeds(c: Connection)
    ensures RowFor(c).Ok? <==> WellFormed(c)
  {
    hide Parse, RowOf;
    if c.line.Some? {
      var services := c.line.value.services.GetOr([]);
      assert (forall s :: s in services ==> JoinableService(s)) <==>
             !(exists i :: 0 <= i < |services| && !JoinableService(services[i]));
    }
  }

  /** Each exception of lines 94-114, raised when every lookup before it has succeeded. */
  lemma RowForFaults(c: Connection)
    ensures c.fromPlace.None? ==> RowFor(c) == Err(KeyError("fromPlace"))
    ensures c.fromPlace.Some? && c.fromPlace.value.dateTime.None? ==> RowFor(c) == Err(KeyError("dateTime"))
    ensures c.fromPlace.Some? && c.fromPlace.value.dateTime.Some? && c.toPlace.None? ==>
              RowFor(c) == Err(KeyError("toPlace"))
    ensures c.fromPlace.Some? && c.fromPlace.value.dateTime.Some? &&
            c.toPlace.Some? && c.toPlace.value.dateTime.None? ==>
              RowFor(c) == Err(KeyError("dateTime"))
    ensures PlacesPresent(c) && Departure(c).Other? ==> RowFor(c) == Err(TypeError)
    ensures PlacesPresent(c) && Departure(c).Text? && Parse(Departure(c).text).None? ==>
              RowFor(c) == Err(ValueError(Departure(c).text))
    ensures PlacesPresent(c) && Departure(c).Text? && Parse(Departure(c).text).Some? &&
            Arrival(c).Other? ==>
              RowFor(c) == Err(TypeError)
    ensures PlacesPresent(c) && Departure(c).Text? && Parse(Departure(c).text).Some? &&
            Arrival(c).Text? && Parse(Arrival(c).text).None? ==>
              RowFor(c) == Err(ValueError(Arrival(c).text))
    ensures StampsParse(c) && c.duration.None? ==> RowFor(c) == Err(KeyError("duration"))
    ensures StampsParse(c) && c.duration.Some? && c.companies.None? ==> RowFor(c) == Err(KeyError("companies"))
    ensures StampsParse(c) && c.duration.Some? && c.companies.Some? &&
            |c.companies.value| > 0 && c.companies.value[0].name.None? ==>
              RowFor(c) == Err(KeyError("name"))
    ensures StampsParse(c) && c.duration.Some? && c.companies.Some? &&
            (|c.companies.value| > 0 ==> c.companies.value[0].name.Some?) && c.line.None? ==>
              RowFor(c) == Err(KeyError("line"))
    ensures FieldsPresent(c) &&
            (exists i :: 0 <= i < |c.line.value.services.GetOr([])| &&
                         c.line.value.services.GetOr([])[i].service.Some? &&
                         c.line.value.services.GetOr([])[i].service.value.Other?) ==>
              RowFor(c) == Err(TypeError)
  {
    hide Parse;
  }

  /** Columns 0 to 2: the departure's date and the departure and arrival
      clock times are the characters of the timestamps as written. */
  lemma TimeColumns(c: Connection, row: DisplayRow)
    requires RowFor(c) == Ok(row)
    ensures c.fromPlace.Some? && c.fromPlace.value.dateTime.Some? && c.fromPlace.value.dateTime.value.Text?
    ensures c.toPlace.Some? && c.toPlace.value.dateTime.Some? && c.toPlace.value.dateTime.value.Text?
    ensures var departure, arrival := c.fromPlace.value.dateTime.value.text, c.toPlace.value.dateTime.value.text;
      |departure| >= 16 && |arrival| >= 16 &&
      row.date == departure[..10] && row.departure == departure[11..16] && row.arrival == arrival[11..16]
  {
    hide Parse;
    var departure, arrival := c.fromPlace.value.dateTime.value.text, c.toPlace.value.dateTime.value.text;
    ProjectionsAsWritten(departure, Parse(departure).value);
    ProjectionsAsWritten(arrival, Parse(arrival).value);
  }

  /** Columns 3 and 6 to 11: the value's string form, "N/A" for an absent line field. */
  lemma PlainColumns(c: Connection, row: DisplayRow)
    requires RowFor(c) == Ok(row)
    ensures c.duration.Some? && row.duration == Str(c.duration.value)
    ensures c.line.Some?
    ensures var line := c.line.value;
      (line.number.None? ==> row.number == NotAvailable) &&
      (line.number.Some? ==> row.number == Str(line.number.value)) &&
      (line.departureType.None? ==> row.departureType == NotAvailable) &&
      (line.departureType.Some? ==> row.departureType == Str(line.departureType.value)) &&
      (line.name.None? ==> row.name == NotAvailable) &&
      (line.name.Some? ==> row.name == Str(line.name.value)) &&
      (line.daysOfOperationLong.None? ==> row.daysOfOperation == NotAvailable) &&
      (line.daysOfOperationLong.Some? ==> row.daysOfOperation == Str(line.daysOfOperationLong.value)) &&
      (line.validityPeriod.None? ==> row.validity == NotAvailable) &&
      (line.validityPeriod.Some? ==> row.validity == Str(line.validityPeriod.value)) &&
      (line.lengthKm.None? ==> row.lengthKm == NotAvailable) &&
      (line.lengthKm.Some? ==> row.lengthKm == Str(line.lengthKm.value))
  {
    hide Parse;
  }

  /** Column 4: "N/A" exactly when the price is absent or is itself the
      string "N/A"; otherwise the price text followed by the euro sign. */
  lemma PriceColumn(c: Connection, row: DisplayRow)
    requires RowFor(c) == Ok(row)
    ensures row.price == NotAvailable <==> c.adultPrice.None? || c.adultPrice == Some(Text(NotAvailable))
    ensures row.price != NotAvailable ==>
      c.adultPrice.Some? && row.price == Str(c.adultPrice.value) + Currency
  {
    hide Parse;
    assert row.price == PriceCell(c.adultPrice);
  }

  /** Column 5: the first company's name, or "N/A" for an empty list. */
  lemma CompanyColumn(c: Connection, row: DisplayRow)
    requires RowFor(c) == Ok(row)
    ensures c.companies.Some?
    ensures |c.companies.value| == 0 ==> row.company == NotAvailable
    ensures |c.companies.value| > 0 ==>
      c.companies.value[0].name.Some? && row.company == Str(c.companies.value[0].name.value)
  {
    hide Parse;
  }

  /** Column 12: the ", "-join of one part per service entry, an entry
      without `service` giving the empty part; it is empty exactly when the
      list is missing or empty, or holds one entry with empty text. */
  lemma ServicesColumn(c: Connection, row: DisplayRow)
    requires RowFor(c) == Ok(row)
    ensures c.line.Some?
    ensures var services := c.line.value.services.GetOr([]);
      exists parts: seq<string> ::
        |parts| == |services| &&
        (forall i :: 0 <= i < |services| ==> parts[i] == Str(services[i].service.GetOr(Text("")))) &&
        row.services == Join(parts, ServiceSeparator)
    ensures var services := c.line.value.services.GetOr([]);
      row.services == "" <==>
        |services| == 0 || (|services| == 1 && Str(services[0].service.GetOr(Text(""))) == "")
  {
    hide Parse;
    var parts := ServiceParts(c.line.value.services.GetOr([]));
    assert row.services == Join(parts, ServiceSeparator);
    JoinIsEmpty(parts, ServiceSeparator);
  }
}
