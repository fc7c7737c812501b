/**
  The decision rules of the browser client (frontend/app.js), apart from the DOM:
  form validation, the messages a submission leads to, the request URLs, the option
  lists of the select controls, the table renderers and the tab rule. The class in
  ClientView applies them to the page's state.
 */
module ClientRules {
  import opened Wrappers
  import opened Ledger
  import opened Queries

  const ApiBase := "http://localhost:8000"

  // ---------------------------------------------------------------------------
  // Form values

  /**
    A number as `parseInt` or `parseFloat` returns it: NaN or a value. The text of
    the input field and its parsing are not modelled; an empty field parses to NaN.
   */
  datatype JsNumber = NaN | Num(value: real)

  /** JavaScript truthiness of a number: NaN, 0 and -0 are falsy. */
  predicate Truthy(n: JsNumber): (t: bool)
    ensures t <==> n != NaN && n != Num(0.0)
  {
    n.Num? && n.value != 0.0
  }

  /** The write-off form: both selects, the text inputs, and `parseInt` of the quantity. */
  datatype WriteoffForm = WriteoffForm(
    category: string,
    basis: string,
    itemName: string,
    quantity: JsNumber,
    writeoffDate: string,
    destination: string)

  /** The catalog-item form, with `parseFloat` of amount and price and `parseInt` of quantity. */
  datatype TmcForm = TmcForm(
    category: string,
    name: string,
    receiptDate: string,
    amount: JsNumber,
    price: JsNumber,
    quantity: JsNumber)

  /** What `reset()` leaves in the forms: empty fields, which parse to NaN. */
  const EmptyWriteoffForm := WriteoffForm("", "", "", NaN, "", "")
  const EmptyTmcForm := TmcForm("", "", "", NaN, NaN, NaN)

  /** The guard of `submitWriteoff`: every field but `basis` must be truthy. */
  predicate WriteoffFormComplete(f: WriteoffForm): (ok: bool)
    ensures ok ==> f.category != "" && f.itemName != "" && f.writeoffDate != "" && f.destination != ""
    ensures f.quantity == NaN || f.quantity == Num(0.0) ==> !ok
    ensures (&& f.category != "" && f.itemName != "" && f.writeoffDate != "" && f.destination != ""
             && f.quantity.Num? && f.quantity.value != 0.0) ==> ok
  {
    f.category != "" && f.itemName != "" && Truthy(f.quantity) && f.writeoffDate != "" && f.destination != ""
  }

  /** `basis` is the one field of the write-off form the guard does not look at. */
  lemma WriteoffGuardIgnoresBasis(f: WriteoffForm, basis: string)
    ensures WriteoffFormComplete(f.(basis := basis)) == WriteoffFormComplete(f)
  {
  }

  /** The guard lets a negative quantity through: only NaN and 0 are falsy. */
  lemma WriteoffGuardAdmitsNegative(f: WriteoffForm)
    requires f.category != "" && f.itemName != "" && f.writeoffDate != "" && f.destination != ""
    requires f.quantity.Num? && f.quantity.value < 0.0
    ensures WriteoffFormComplete(f)
  {
  }

  /** The guard of `addTMCItem`: every field must be truthy, so a 0 price, amount or quantity is refused. */
  predicate TmcFormComplete(f: TmcForm): (ok: bool)
    ensures ok ==> f.category != "" && f.name != "" && f.receiptDate != ""
    ensures f.amount == NaN || f.amount == Num(0.0) ==> !ok
    ensures f.price == NaN || f.price == Num(0.0) ==> !ok
    ensures f.quantity == NaN || f.quantity == Num(0.0) ==> !ok
    ensures (&& f.category != "" && f.name != "" && f.receiptDate != ""
             && Truthy(f.amount) && Truthy(f.price) && Truthy(f.quantity)) ==> ok
  {
    && f.category != "" && f.name != "" && f.receiptDate != ""
    && Truthy(f.amount) && Truthy(f.price) && Truthy(f.quantity)
  }

  // ---------------------------------------------------------------------------
  // Requests

  /** A query parameter as `URLSearchParams` receives it from the form object. */
  datatype Param = Str(text: string) | Number(number: JsNumber)

  /** A request the client issues; the percent-encoding of POST parameters is not modelled. */
  datatype Request = Get(url: string) | Post(url: string, params: seq<(string, Param)>)

  /** `new URLSearchParams(formData)` for the write-off form, in the object's key order. */
  function WriteoffParams(f: WriteoffForm): seq<(string, Param)>
  {
    [("category", Str(f.category)), ("basis", Str(f.basis)), ("item_name", Str(f.itemName)),
     ("quantity", Number(f.quantity)), ("writeoff_date", Str(f.writeoffDate)),
     ("destination", Str(f.destination))]
  }

  /** `new URLSearchParams(formData)` for the catalog-item form, in the object's key order. */
  function TmcParams(f: TmcForm): seq<(string, Param)>
  {
    [("category", Str(f.category)), ("name", Str(f.name)), ("receipt_date", Str(f.receiptDate)),
     ("amount", Number(f.amount)), ("price", Number(f.price)), ("quantity", Number(f.quantity))]
  }

  function NamesUrl(category: string): string
  {
    ApiBase + "/names/" + category
  }

  /** The query `loadStats` writes by string interpolation, without any encoding. */
  function StatsQuery(startDate: string, endDate: string, destination: string): string
  {
    ("start_date=" + startDate) + "&" + ("end_date=" + endDate)
      + (if destination != "" then "&" + ("destination=" + destination) else "")
  }

  function StatsUrl(startDate: string, endDate: string, destination: string): string
  {
    ApiBase + "/stats?" + StatsQuery(startDate, endDate, destination)
  }

  /** The request `loadStats` makes, or None when a date is missing and it alerts instead. */
  function StatsRequest(startDate: string, endDate: string, destination: string): (r: Option<Request>)
    ensures r.None? <==> startDate == "" || endDate == ""
    ensures r.Some? ==> r.value.Get? && r.value.url == ApiBase + "/stats?" + StatsQuery(startDate, endDate, destination)
  {
    if startDate == "" || endDate == "" then None else Some(Get(StatsUrl(startDate, endDate, destination)))
  }

  // ---------------------------------------------------------------------------
  // Reading a query back, as the server does

  /** The text after the first `c`, or "" when there is none. */
  function After(s: string, c: char): string
  {
    if s == [] then [] else if s[0] == c then s[1..] else After(s[1..], c)
  }

  /** The text before the first `c`, or all of `s` when there is none. */
  function Before(s: string, c: char): string
  {
    if s == [] then [] else if s[0] == c then [] else [s[0]] + Before(s[1..], c)
  }

  /** `s` cut at every `sep`. */
  function SplitOn(s: string, sep: char): (parts: seq<string>)
    ensures |parts| >= 1
  {
    if s == [] then [""]
    else
      var rest := SplitOn(s[1..], sep);
      if s[0] == sep then [""] + rest else [[s[0]] + rest[0]] + rest[1..]
  }

  /** Key and value of one `key=value` field; a field without `=` has the empty value. */
  function Field(f: string): (string, string)
  {
    (Before(f, '='), After(f, '='))
  }

  /** The fields of a query string in order; empty fields are skipped. */
  function Fields(parts: seq<string>): seq<(string, string)>
  {
    if parts == [] then []
    else (if parts[0] == "" then [] else [Field(parts[0])]) + Fields(parts[1..])
  }

  /** The raw `key=value` fields of a URL's query, before any decoding. */
  function QueryParams(url: string): seq<(string, string)>
  {
    Fields(SplitOn(After(url, '?'), '&'))
  }

  /** The value a handler receives for `key`: the last one given. */
  function Lookup(params: seq<(string, string)>, key: string): Option<string>
  {
    if params == [] then None
    else
      var n := |params| - 1;
      if params[n].0 == key then Some(params[n].1) else Lookup(params[..n], key)
  }

  /** No character that cuts a query: `&` ends a field, `#` starts the fragment the browser does not send. */
  predicate Unsplit(s: string)
  {
    '&' !in s && '#' !in s
  }

  /** No character that changes how a query is cut or decoded. */
  predicate Plain(s: string)
  {
    Unsplit(s) && '%' !in s && '+' !in s
  }

  predicate IsHexDigit(c: char)
  {
    '0' <= c <= '9' || 'A' <= c <= 'F' || 'a' <= c <= 'f'
  }

  function HexValue(c: char): (v: nat)
    requires IsHexDigit(c)
    ensures v < 16
  {
    if '0' <= c <= '9' then c as int - '0' as int
    else if 'A' <= c <= 'F' then c as int - 'A' as int + 10
    else c as int - 'a' as int + 10
  }

  /**
    The server's decoding of a query key or value: `+` is a space and `%XY` the
    character with code XY. Only escapes of codes below 0x80 are decoded here; other
    `%` sequences are kept as they are.
   */
  function Decode(s: string): string
    decreases |s|
  {
    if s == [] then []
    else if s[0] == '+' then " " + Decode(s[1..])
    else if s[0] == '%' && |s| >= 3 && IsHexDigit(s[1]) && IsHexDigit(s[2]) && HexValue(s[1]) < 8 then
      [(HexValue(s[1]) * 16 + HexValue(s[2])) as char] + Decode(s[3..])
    else [s[0]] + Decode(s[1..])
  }

  /** The parameters a handler receives: the query's fields, each key and value decoded. */
  function ServerParams(url: string): seq<(string, string)>
  {
    DecodeFields(QueryParams(url))
  }

  /** Each key and value of a list of fields, decoded. */
  function DecodeFields(fields: seq<(string, string)>): seq<(string, string)>
  {
    seq(|fields|, k requires 0 <= k < |fields| => DecodeField(fields[k]))
  }

  function DecodeField(field: (string, string)): (string, string)
  {
    (Decode(field.0), Decode(field.1))
  }

  lemma DecodeThreeFields(f1: (string, string), f2: (string, string), f3: (string, string))
    ensures DecodeFields([f1, f2, f3]) == [DecodeField(f1), DecodeField(f2), DecodeField(f3)]
  {
  }

  lemma {:induction false} AfterPrefix(a: string, c: char, b: string)
    requires c !in a
    ensures After(a + [c] + b, c) == b
  {
    if a != [] {
      assert (a + [c] + b)[1..] == a[1..] + [c] + b;
      AfterPrefix(a[1..], c, b);
    }
  }

  lemma {:induction false} BeforePrefix(a: string, c: char, b: string)
    requires c !in a
    ensures Before(a + [c] + b, c) == a
  {
    if a != [] {
      assert (a + [c] + b)[1..] == a[1..] + [c] + b;
      BeforePrefix(a[1..], c, b);
    }
  }

  lemma {:induction false} SplitOnNone(a: string, sep: char)
    requires sep !in a
    ensures SplitOn(a, sep) == [a]
  {
    if a != [] {
      SplitOnNone(a[1..], sep);
      assert a == [a[0]] + a[1..];
    }
  }

  lemma {:induction false} SplitOnFirst(a: string, sep: char, b: string)
    requires sep !in a
    ensures SplitOn(a + [sep] + b, sep) == [a] + SplitOn(b, sep)
  {
    if a != [] {
      assert (a + [sep] + b)[1..] == a[1..] + [sep] + b;
      SplitOnFirst(a[1..], sep, b);
      assert a == [a[0]] + a[1..];
    } else {
      assert a + [sep] + b == [sep] + b;
    }
  }

  lemma FieldOf(key: string, value: string)
    requires '=' !in key
    ensures Field(key + "=" + value) == (key, value)
  {
    AfterPrefix(key, '=', value);
    BeforePrefix(key, '=', value);
  }

  /**
    The statistics URL carries the two dates, and the destination only when one is
    chosen: its query cuts into exactly these fields, provided no value holds a
    character that cuts a query.
   */
  lemma StatsQueryRoundTrip(startDate: string, endDate: string, destination: string)
    requires Unsplit(startDate) && Unsplit(endDate) && Unsplit(destination)
    ensures QueryParams(StatsUrl(startDate, endDate, destination))
         == [("start_date", startDate), ("end_date", endDate)]
            + (if destination != "" then [("destination", destination)] else [])
  {
    QueryOfStatsUrl(startDate, endDate, destination);
    var parts := StatsFields(startDate, endDate, destination);
    KeyedField("start_date=", "start_date", startDate);
    KeyedField("end_date=", "end_date", endDate);
    KeyedField("destination=", "destination", destination);
    if destination != "" {
      FieldsOfThree(parts[0], parts[1], parts[2]);
      AppendThree(("start_date", startDate), ("end_date", endDate), ("destination", destination));
    } else {
      AppendNothing(["start_date=" + startDate, "end_date=" + endDate]);
      FieldsOfTwo(parts[0], parts[1]);
      AppendNothing([("start_date", startDate), ("end_date", endDate)]);
    }
  }

  /** The server reads the fields of the statistics URL from its query. */
  lemma QueryOfStatsUrl(startDate: string, endDate: string, destination: string)
    ensures QueryParams(StatsUrl(startDate, endDate, destination))
         == Fields(SplitOn(StatsQuery(startDate, endDate, destination), '&'))
  {
    var q := StatsQuery(startDate, endDate, destination);
    assert StatsUrl(startDate, endDate, destination) == (ApiBase + "/stats") + ['?'] + q;
    AfterPrefix(ApiBase + "/stats", '?', q);
  }

  /** A `key=` prefix followed by a value reads back as that key and value. */
  lemma KeyedField(prefix: string, key: string, value: string)
    requires prefix == key + "=" && '=' !in key
    ensures Field(prefix + value) == (key, value)
  {
    FieldOf(key, value);
  }

  lemma FieldsOfTwo(p1: string, p2: string)
    requires p1 != "" && p2 != ""
    ensures Fields([p1, p2]) == [Field(p1), Field(p2)]
  {
    FieldsOfNonEmpty([p1, p2]);
  }

  lemma FieldsOfThree(p1: string, p2: string, p3: string)
    requires p1 != "" && p2 != "" && p3 != ""
    ensures Fields([p1, p2, p3]) == [Field(p1), Field(p2), Field(p3)]
  {
    FieldsOfNonEmpty([p1, p2, p3]);
  }

  lemma FieldsOfFour(p1: string, p2: string, p3: string, p4: string)
    requires p1 != "" && p2 != "" && p3 != "" && p4 != ""
    ensures Fields([p1, p2, p3, p4]) == [Field(p1), Field(p2), Field(p3), Field(p4)]
  {
    FieldsOfNonEmpty([p1, p2, p3, p4]);
  }

  /** The `&`-separated fields of the statistics query. */
  lemma StatsFields(startDate: string, endDate: string, destination: string) returns (parts: seq<string>)
    requires Unsplit(startDate) && Unsplit(endDate) && Unsplit(destination)
    ensures parts == SplitOn(StatsQuery(startDate, endDate, destination), '&')
    ensures parts == ["start_date=" + startDate, "end_date=" + endDate]
                     + (if destination != "" then ["destination=" + destination] else [])
  {
    var f1, f2, f3 := "start_date=" + startDate, "end_date=" + endDate, "destination=" + destination;
    KeyedWithout("start_date=", startDate, '&');
    KeyedWithout("end_date=", endDate, '&');
    KeyedWithout("destination=", destination, '&');
    if destination != "" {
      assert StatsQuery(startDate, endDate, destination) == f1 + ['&'] + (f2 + ['&'] + f3);
      SplitThree(f1, f2, f3, '&');
      AppendThree(f1, f2, f3);
    } else {
      assert StatsQuery(startDate, endDate, destination) == f1 + ['&'] + f2;
      SplitTwo(f1, f2, '&');
      AppendNothing([f1, f2]);
    }
    parts := SplitOn(StatsQuery(startDate, endDate, destination), '&');
  }

  lemma KeyedWithout(key: string, value: string, sep: char)
    requires sep !in key && sep !in value
    ensures sep !in key + value
  {
  }

  lemma SplitTwo(f1: string, f2: string, sep: char)
    requires sep !in f1 && sep !in f2
    ensures SplitOn(f1 + [sep] + f2, sep) == [f1, f2]
  {
    SplitOnFirst(f1, sep, f2);
    SplitOnNone(f2, sep);
  }

  lemma SplitThree(f1: string, f2: string, f3: string, sep: char)
    requires sep !in f1 && sep !in f2 && sep !in f3
    ensures SplitOn(f1 + [sep] + (f2 + [sep] + f3), sep) == [f1, f2, f3]
  {
    SplitOnFirst(f1, sep, f2 + [sep] + f3);
    SplitTwo(f2, f3, sep);
  }

  lemma {:induction false} FieldsOfNonEmpty(parts: seq<string>)
    requires forall k :: 0 <= k < |parts| ==> parts[k] != ""
    ensures |Fields(parts)| == |parts|
    ensures forall k :: 0 <= k < |parts| ==> Fields(parts)[k] == Field(parts[k])
  {
    if parts != [] {
      FieldsOfNonEmpty(parts[1..]);
    }
  }

  /** A query with the statistics keys, in the client's order, gives the values back by key. */
  lemma LookupStatsParams(startDate: string, endDate: string, destination: Option<string>)
    ensures var params := [("start_date", startDate), ("end_date", endDate)]
                          + (if destination.Some? then [("destination", destination.value)] else []);
      && Lookup(params, "start_date") == Some(startDate)
      && Lookup(params, "end_date") == Some(endDate)
      && Lookup(params, "destination") == destination
  {
    var p1, p2 := ("start_date", startDate), ("end_date", endDate);
    assert "destination" != "start_date" && "destination" != "end_date" && "end_date" != "start_date";
    assert [p1, p2][..1] == [p1];
    assert Lookup([p1], "destination") == None;
    assert Lookup([p1, p2], "destination") == None;
    assert Lookup([p1, p2], "start_date") == Lookup([p1], "start_date");
    if destination.Some? {
      var p3 := ("destination", destination.value);
      assert [p1, p2] + [p3] == [p1, p2, p3];
      assert [p1, p2, p3][..2] == [p1, p2];
      assert Lookup([p1, p2, p3], "start_date") == Lookup([p1, p2], "start_date");
      assert Lookup([p1, p2, p3], "end_date") == Lookup([p1, p2], "end_date");
    } else {
      assert [p1, p2] + [] == [p1, p2];
    }
  }

  lemma {:induction false} DecodePlain(s: string)
    requires '%' !in s && '+' !in s
    ensures Decode(s) == s
  {
    if s != [] {
      DecodePlain(s[1..]);
      assert s == [s[0]] + s[1..];
    }
  }

  /** The parameters the server receives for the statistics URL: the fields of the query, decoded. */
  lemma DecodedStatsParams(startDate: string, endDate: string, destination: string)
    requires Unsplit(startDate) && Unsplit(endDate) && Unsplit(destination)
    ensures ServerParams(StatsUrl(startDate, endDate, destination))
         == [("start_date", Decode(startDate)), ("end_date", Decode(endDate))]
            + (if destination != "" then [("destination", Decode(destination))] else [])
  {
    StatsQueryRoundTrip(startDate, endDate, destination);
    var url := StatsUrl(startDate, endDate, destination);
    if destination != "" {
      DecodedThree(url, startDate, endDate, destination);
    } else {
      DecodedTwo(url, startDate, endDate);
    }
  }

  lemma DecodedTwo(url: string, startDate: string, endDate: string)
    requires QueryParams(url) == [("start_date", startDate), ("end_date", endDate)] + []
    ensures ServerParams(url) == [("start_date", Decode(startDate)), ("end_date", Decode(endDate))] + []
  {
    KeysDecodeToThemselves();
    DecodedPair("start_date", startDate, "end_date", endDate);
  }

  lemma DecodedThree(url: string, startDate: string, endDate: string, destination: string)
    requires QueryParams(url) == [("start_date", startDate), ("end_date", endDate)] + [("destination", destination)]
    ensures ServerParams(url)
         == [("start_date", Decode(startDate)), ("end_date", Decode(endDate))] + [("destination", Decode(destination))]
  {
    KeysDecodeToThemselves();
    DecodedTriple("start_date", startDate, "end_date", endDate, "destination", destination);
  }

  lemma DecodedPair(k1: string, v1: string, k2: string, v2: string)
    ensures DecodeFields([(k1, v1), (k2, v2)] + []) == [(Decode(k1), Decode(v1)), (Decode(k2), Decode(v2))] + []
  {
    assert [(k1, v1), (k2, v2)] + [] == [(k1, v1), (k2, v2)];
  }

  lemma AppendNothing<T>(s: seq<T>)
    ensures s + [] == s
  {
  }

  lemma AppendThree<T>(a: T, b: T, c: T)
    ensures [a, b] + [c] == [a, b, c]
  {
  }

  lemma DecodedTriple(k1: string, v1: string, k2: string, v2: string, k3: string, v3: string)
    ensures DecodeFields([(k1, v1), (k2, v2)] + [(k3, v3)])
         == [(Decode(k1), Decode(v1)), (Decode(k2), Decode(v2))] + [(Decode(k3), Decode(v3))]
  {
    AppendThree((k1, v1), (k2, v2), (k3, v3));
    DecodeThreeFields((k1, v1), (k2, v2), (k3, v3));
    AppendThree((Decode(k1), Decode(v1)), (Decode(k2), Decode(v2)), (Decode(k3), Decode(v3)));
  }

  lemma KeysDecodeToThemselves()
    ensures Decode("start_date") == "start_date"
    ensures Decode("end_date") == "end_date"
    ensures Decode("destination") == "destination"
  {
    DecodePlain("start_date");
    DecodePlain("end_date");
    DecodePlain("destination");
  }

  /**
    What `get_stats` answers to the client's URL is the summary for the chosen dates,
    filtered by the destination exactly when the user chose one, and its echoed
    destination is the chosen one or "Все направления", for values that need no escaping.
   */
  lemma StatsRequestServed(ws: seq<WriteOff>, startDate: string, endDate: string, destination: string)
    requires Plain(startDate) && Plain(endDate) && Plain(destination)
    ensures var params := ServerParams(StatsUrl(startDate, endDate, destination));
      && Lookup(params, "start_date") == Some(startDate)
      && Lookup(params, "end_date") == Some(endDate)
      && Lookup(params, "destination") == (if destination != "" then Some(destination) else None)
      && var s := GetStats(ws, startDate, endDate, Lookup(params, "destination"));
         && s.destination == (if destination != "" then destination else AllDestinations)
         && s == GetStats(ws, startDate, endDate, if destination != "" then Some(destination) else None)
  {
    DecodedStatsParams(startDate, endDate, destination);
    DecodePlain(startDate);
    DecodePlain(endDate);
    DecodePlain(destination);
    LookupStatsParams(startDate, endDate, if destination != "" then Some(destination) else None);
  }

  // ---------------------------------------------------------------------------
  // Unescaped values in the statistics URL

  lemma {:induction false} SplitOnAppend(a: string, sep: char, b: string)
    ensures SplitOn(a + [sep] + b, sep) == SplitOn(a, sep) + SplitOn(b, sep)
  {
    if a == [] {
      assert a + [sep] + b == [sep] + b;
    } else {
      assert (a + [sep] + b)[1..] == a[1..] + [sep] + b;
      SplitOnAppend(a[1..], sep, b);
    }
  }

  lemma {:induction false} FieldWithoutValue(f: string)
    requires '=' !in f
    ensures Field(f) == (f, "")
  {
    if f != [] {
      FieldWithoutValue(f[1..]);
      assert f == [f[0]] + f[1..];
    }
  }

  lemma Regroup(p: string, k: string, a: string, b: string)
    ensures p + ("&" + (k + (a + "&" + b))) == (p + ("&" + (k + a))) + ['&'] + b
  {
  }

  /** The `&`-separated fields of a statistics query whose destination `a&b` holds an ampersand. */
  lemma AmpersandParts(startDate: string, endDate: string, a: string, b: string)
    requires Unsplit(startDate) && Unsplit(endDate) && Unsplit(a) && Unsplit(b) && a != ""
    ensures SplitOn(StatsQuery(startDate, endDate, a + "&" + b), '&')
         == ["start_date=" + startDate, "end_date=" + endDate, "destination=" + a, b]
  {
    Regroup(("start_date=" + startDate) + "&" + ("end_date=" + endDate), "destination=", a, b);
    assert StatsQuery(startDate, endDate, a + "&" + b) == StatsQuery(startDate, endDate, a) + ['&'] + b;
    var parts := StatsFields(startDate, endDate, a);
    SplitOnAppend(StatsQuery(startDate, endDate, a), '&', b);
    SplitOnNone(b, '&');
  }

  /** The raw fields of a statistics URL whose destination `a&b` holds an ampersand. */
  lemma AmpersandFields(startDate: string, endDate: string, a: string, b: string)
    requires Unsplit(startDate) && Unsplit(endDate) && Unsplit(a) && Unsplit(b)
    requires a != "" && b != "" && '=' !in b
    ensures QueryParams(StatsUrl(startDate, endDate, a + "&" + b))
         == [("start_date", startDate), ("end_date", endDate), ("destination", a), (b, "")]
  {
    QueryOfStatsUrl(startDate, endDate, a + "&" + b);
    AmpersandParts(startDate, endDate, a, b);
    var p1, p2, p3 := "start_date=" + startDate, "end_date=" + endDate, "destination=" + a;
    FieldsOfFour(p1, p2, p3, b);
    KeyedField("start_date=", "start_date", startDate);
    KeyedField("end_date=", "end_date", endDate);
    KeyedField("destination=", "destination", a);
    FieldWithoutValue(b);
  }

  /** The parameters the server receives for a destination `a&b` holding an ampersand. */
  lemma AmpersandParams(startDate: string, endDate: string, a: string, b: string)
    requires Plain(startDate) && Plain(endDate) && Plain(a) && Plain(b)
    requires a != "" && b != "" && '=' !in b
    ensures ServerParams(StatsUrl(startDate, endDate, a + "&" + b))
         == [("start_date", startDate), ("end_date", endDate), ("destination", a)] + [(b, "")]
  {
    var url := StatsUrl(startDate, endDate, a + "&" + b);
    AmpersandFields(startDate, endDate, a, b);
    var fields := [("start_date", startDate), ("end_date", endDate), ("destination", a), (b, "")];
    assert QueryParams(url) == fields;
    forall k | 0 <= k < 4 ensures Decode(fields[k].0) == fields[k].0 && Decode(fields[k].1) == fields[k].1 {
      DecodePlain(fields[k].0);
      DecodePlain(fields[k].1);
    }
    assert ServerParams(url) == fields;
    assert fields == [("start_date", startDate), ("end_date", endDate), ("destination", a)] + [(b, "")];
  }

  /**
    As written, a destination holding `&` reaches the server cut at it: for `a&b` the
    handler receives `a`, and `b` becomes a parameter of its own (which, if it is
    itself named "destination", overrides with the empty value).
   */
  lemma AmpersandSplitsDestination(startDate: string, endDate: string, a: string, b: string)
    requires Plain(startDate) && Plain(endDate) && Plain(a) && Plain(b)
    requires a != "" && b != "" && '=' !in b
    ensures Lookup(ServerParams(StatsUrl(startDate, endDate, a + "&" + b)), "destination")
         == Some(if b == "destination" then "" else a)
  {
    AmpersandParams(startDate, endDate, a, b);
    var first := [("start_date", startDate), ("end_date", endDate)] + [("destination", a)];
    var params := first + [(b, "")];
    assert params[..3] == first;
    LookupStatsParams(startDate, endDate, Some(a));
  }

  /** A destination `R&D` chosen in the select reaches the statistics handler as `R`. */
  lemma DestinationWithAmpersandCut(ws: seq<WriteOff>)
    ensures var params := ServerParams(StatsUrl("2024-01-01", "2024-12-31", "R&D"));
      && Lookup(params, "destination") == Some("R")
      && GetStats(ws, "2024-01-01", "2024-12-31", Lookup(params, "destination")).destination == "R"
  {
    assert "R&D" == "R" + "&" + "D";
    AmpersandSplitsDestination("2024-01-01", "2024-12-31", "R", "D");
  }

  /** A destination `A+B` reaches the statistics handler as `A B`. */
  lemma DestinationWithPlusDecoded(startDate: string, endDate: string)
    requires Plain(startDate) && Plain(endDate)
    ensures Lookup(ServerParams(StatsUrl(startDate, endDate, "A+B")), "destination") == Some("A B")
  {
    DecodedStatsParams(startDate, endDate, "A+B");
    DecodePlain(startDate);
    DecodePlain(endDate);
    assert Decode("A+B") == "A B" by {
      assert "A+B"[1..] == "+B" && "+B"[1..] == "B";
      assert Decode("B") == "B";
    }
    LookupStatsParams(startDate, endDate, Some("A B"));
  }

  /** `encodeURIComponent`, restricted to the characters the query syntax gives a meaning. */
  function EscapeChar(c: char): string
  {
    match c
    case '&' => "%26"
    case '#' => "%23"
    case '%' => "%25"
    case '+' => "%2B"
    case _ => [c]
  }

  function Escape(s: string): (r: string)
    ensures Unsplit(r)
    ensures r == [] <==> s == []
  {
    if s == [] then [] else EscapeChar(s[0]) + Escape(s[1..])
  }

  lemma DecodeEscapeChar(c: char, rest: string)
    ensures Decode(EscapeChar(c) + rest) == [c] + Decode(rest)
  {
    var e := EscapeChar(c) + rest;
    if c in "&#%+" {
      assert e[0] == '%' && |e| >= 3 && e[3..] == rest;
      assert IsHexDigit(e[1]) && IsHexDigit(e[2]) && HexValue(e[1]) < 8;
      assert (HexValue(e[1]) * 16 + HexValue(e[2])) as char == c;
    } else {
      assert e == [c] + rest;
    }
  }

  lemma {:induction false} DecodeEscape(s: string)
    ensures Decode(Escape(s)) == s
  {
    if s != [] {
      DecodeEscape(s[1..]);
      DecodeEscapeChar(s[0], Escape(s[1..]));
      assert s == [s[0]] + s[1..];
    }
  }

  /** The statistics URL with every value escaped, as `encodeURIComponent` would. */
  function EscapedStatsUrl(startDate: string, endDate: string, destination: string): string
  {
    StatsUrl(Escape(startDate), Escape(endDate), Escape(destination))
  }

  /**
    With its values escaped, the statistics URL reaches the server intact for every
    input: the handler receives exactly the two dates and the chosen destination, so
    the summary is filtered by that destination exactly when one is chosen.
   */
  lemma EscapedStatsRequestServed(ws: seq<WriteOff>, startDate: string, endDate: string, destination: string)
    ensures var params := ServerParams(EscapedStatsUrl(startDate, endDate, destination));
      && Lookup(params, "start_date") == Some(startDate)
      && Lookup(params, "end_date") == Some(endDate)
      && Lookup(params, "destination") == (if destination != "" then Some(destination) else None)
      && GetStats(ws, startDate, endDate, Lookup(params, "destination"))
         == GetStats(ws, startDate, endDate, if destination != "" then Some(destination) else None)
  {
    DecodedStatsParams(Escape(startDate), Escape(endDate), Escape(destination));
    DecodeEscape(startDate);
    DecodeEscape(endDate);
    DecodeEscape(destination);
    LookupStatsParams(startDate, endDate, if destination != "" then Some(destination) else None);
  }

  // ---------------------------------------------------------------------------
  // Messages after a submission

  datatype Kind = Success | Failure

  /** The text and class `showMessage` puts into a message element. */
  datatype Notice = Blank | Notice(text: string, kind: Kind)

  /** A loader a handler starts: loadCategories, loadNames, loadDestinations, loadAllTMC, loadWriteoffs. */
  datatype Load = Categories | Names | Destinations | TmcList | Writeoffs

  /** The JSON body of a POST reply; the client reads only its `error` field. */
  datatype Body = Body(error: Option<string>)

  /** How a POST ends for the client: no response at all, or a status and a body that may not be JSON. */
  datatype PostReply = Unreachable | Received(ok: bool, body: Option<Body>)

  /** What a submission shows, whether it resets its form, and which loaders it starts. */
  datatype Feedback = Feedback(notice: Notice, resetForm: bool, reloads: seq<Load>)

  const FillRequired := "Заполните все обязательные поля"
  const FillAll := "Заполните все поля"
  const WriteoffSaved := "Списание успешно записано!"
  const WriteoffFailed := "Ошибка при записи списания"
  const TmcSaved := "ТМЦ успешно добавлен!"
  const TmcFailed := "Ошибка при добавлении ТМЦ"
  const ConnectionFailed := "Ошибка подключения к серверу"
  const CategoriesFailed := "Ошибка загрузки категорий"
  const NamesFailed := "Ошибка загрузки наименований"
  const ChoosePeriod := "Выберите период дат"
  const StatsFailed := "Ошибка загрузки статистики"

  /** `result.error || fallback`. */
  function ErrorText(b: Body, fallback: string): (text: string)
    ensures text != "" || fallback == ""
    ensures b.error.Some? && b.error.value != "" ==> text == b.error.value
    ensures !(b.error.Some? && b.error.value != "") ==> text == fallback
  {
    if b.error.Some? && b.error.value != "" then b.error.value else fallback
  }

  const WriteoffReloads := [Categories, Destinations, Writeoffs]
  const TmcReloads := [Categories, TmcList]

  /**
    The branches of `submitWriteoff` after the POST, as written: success is decided by
    the HTTP status alone. A reply that is not JSON throws in `response.json()` and
    lands in the connection-error branch.
   */
  function WriteoffFeedbackAsWritten(reply: PostReply): (f: Feedback)
    ensures f.notice.Notice?
    ensures f.notice.kind == Success <==> reply.Received? && reply.ok && reply.body.Some?
    ensures f.notice.kind == Success ==> f.notice.text == WriteoffSaved && f.resetForm && f.reloads == WriteoffReloads
    ensures f.notice.kind == Failure ==> !f.resetForm && f.reloads == []
    ensures !(reply.Received? && reply.body.Some?) ==> f.notice.text == ConnectionFailed
    ensures reply.Received? && !reply.ok && reply.body.Some? ==>
              f.notice.text == ErrorText(reply.body.value, WriteoffFailed)
  {
    match reply
    case Unreachable => Feedback(Notice(ConnectionFailed, Failure), false, [])
    case Received(_, None) => Feedback(Notice(ConnectionFailed, Failure), false, [])
    case Received(ok, Some(body)) =>
      if ok then Feedback(Notice(WriteoffSaved, Success), true, WriteoffReloads)
      else Feedback(Notice(ErrorText(body, WriteoffFailed), Failure), false, [])
  }

  predicate Refused(b: Body)
  {
    b.error.Some? && b.error.value != ""
  }

  /**
    The same branches with the error field consulted whatever the status, so that a
    refusal the server sends with status 200 is shown as an error.
   */
  function WriteoffFeedback(reply: PostReply): (f: Feedback)
    ensures f.notice.Notice?
    ensures f.notice.kind == Success <==> reply.Received? && reply.ok && reply.body.Some? && !Refused(reply.body.value)
    ensures f.notice.kind == Success ==> f.notice.text == WriteoffSaved && f.resetForm && f.reloads == WriteoffReloads
    ensures f.notice.kind == Failure ==> !f.resetForm && f.reloads == []
    ensures reply.Received? && reply.body.Some? && Refused(reply.body.value) ==>
              f.notice.text == reply.body.value.error.value
    ensures !(reply.Received? && reply.body.Some?) ==> f.notice.text == ConnectionFailed
    ensures reply.Received? && !reply.ok && reply.body.Some? && !Refused(reply.body.value) ==>
              f.notice.text == WriteoffFailed
  {
    match reply
    case Unreachable => Feedback(Notice(ConnectionFailed, Failure), false, [])
    case Received(_, None) => Feedback(Notice(ConnectionFailed, Failure), false, [])
    case Received(ok, Some(body)) =>
      if ok && !Refused(body) then Feedback(Notice(WriteoffSaved, Success), true, WriteoffReloads)
      else Feedback(Notice(ErrorText(body, WriteoffFailed), Failure), false, [])
  }

  /** The branches of `addTMCItem` after the POST; the reply body is never read. */
  function TmcFeedback(reply: PostReply): (f: Feedback)
    ensures f.notice.Notice?
    ensures f.notice.kind == Success <==> reply.Received? && reply.ok
    ensures f.notice.kind == Success ==> f.notice.text == TmcSaved && f.resetForm && f.reloads == TmcReloads
    ensures f.notice.kind == Failure ==>
              && !f.resetForm && f.reloads == []
              && f.notice.text == if reply.Unreachable? then ConnectionFailed else TmcFailed
  {
    match reply
    case Unreachable => Feedback(Notice(ConnectionFailed, Failure), false, [])
    case Received(ok, _) =>
      if ok then Feedback(Notice(TmcSaved, Success), true, TmcReloads)
      else Feedback(Notice(TmcFailed, Failure), false, [])
  }

  /** How a handler's returned dict reaches the client: FastAPI sends it as JSON with status 200. */
  function Served(reply: Reply): PostReply
  {
    Received(true, Some(Body(if reply.Error? then Some(reply.text) else None)))
  }

  /**
    As written, every write-off the server refuses is reported as a success: the
    refusal comes with status 200, and the client shows "Списание успешно записано!",
    resets the form and reloads.
   */
  lemma RefusedWriteoffShownAsSuccess(t: Tables, a: WriteoffArgs)
    ensures var out := Writeoff(t, a);
      out.reply.Error? ==>
        WriteoffFeedbackAsWritten(Served(out.reply)) == Feedback(Notice(WriteoffSaved, Success), true, WriteoffReloads)
  {
  }

  /**
    A refusal the page can send: the selects offer the catalog's category and name,
    the form passes the guard, the stock is short, and the client as written shows
    the refusal as a success.
   */
  lemma RefusalOnShortStock()
    ensures var t := Tables([TmcItem(1, "Канцтовары", "Ручка", "2024-01-01", 50, 10, 5)], []);
            var f := WriteoffForm("Канцтовары", "", "Ручка", Num(10.0), "2024-01-15", "Склад");
            var a := WriteoffArgs("Канцтовары", "", "Ручка", 10, "2024-01-15", "Склад");
            && "Канцтовары" in GetCategories(t.items)
            && "Ручка" in GetNames(t.items, "Канцтовары")
            && WriteoffFormComplete(f)
            && Writeoff(t, a).reply == Error(NotEnoughQuantity)
            && WriteoffFeedbackAsWritten(Served(Writeoff(t, a).reply)).notice == Notice(WriteoffSaved, Success)
  {
    var t := Tables([TmcItem(1, "Канцтовары", "Ручка", "2024-01-01", 50, 10, 5)], []);
    assert t.items[0].category == "Канцтовары" && t.items[0].name == "Ручка";
    assert IsFirstMatch(t.items, 0, "Канцтовары", "Ручка");
  }

  /**
    With the error field consulted, the client reports every write-off exactly as the
    server decided it: a refusal shows the server's own text and changes nothing on
    the page, an accepted one shows the success message, resets and reloads.
   */
  lemma WriteoffOutcomeShownFaithfully(t: Tables, a: WriteoffArgs)
    ensures var out := Writeoff(t, a);
      var f := WriteoffFeedback(Served(out.reply));
      && (out.reply.Error? ==> f == Feedback(Notice(out.reply.text, Failure), false, []))
      && (out.reply.Message? ==> f == Feedback(Notice(WriteoffSaved, Success), true, WriteoffReloads))
  {
    var out := Writeoff(t, a);
    assert out.reply.Error? ==> out.reply.text in {ItemNotFound, NotEnoughQuantity};
  }

  // ---------------------------------------------------------------------------
  // Select controls

  /** One `<option>`: its value and its text. */
  datatype SelectOption = SelectOption(value: string, text: string)

  const CategoryPlaceholder := "Выберите категорию"
  const NamePlaceholder := "Выберите наименование"
  const DestinationPlaceholder := "Все направления"

  /**
    A select repainted by a loader: the placeholder option with the empty value, then
    one option per returned value, value and text alike, in the returned order.
   */
  ghost predicate Offers(options: seq<SelectOption>, placeholder: string, values: seq<string>)
  {
    && |options| == |values| + 1
    && options[0] == SelectOption("", placeholder)
    && forall k :: 0 <= k < |values| ==> options[k + 1] == SelectOption(values[k], values[k])
  }

  /** `select.innerHTML = placeholder` followed by one `appendChild` per value. */
  method FillOptions(placeholder: string, values: seq<string>) returns (options: seq<SelectOption>)
    ensures |options| == |values| + 1
    ensures options[0] == SelectOption("", placeholder)
    ensures forall k :: 0 <= k < |values| ==> options[k + 1] == SelectOption(values[k], values[k])
  {
    options := [SelectOption("", placeholder)];
    var i := 0;
    while i < |values|
      invariant 0 <= i <= |values|
      invariant |options| == i + 1
      invariant options[0] == SelectOption("", placeholder)
      invariant forall k :: 0 <= k < i ==> options[k + 1] == SelectOption(values[k], values[k])
    {
      options := options + [SelectOption(values[i], values[i])];
      i := i + 1;
    }
  }

  // ---------------------------------------------------------------------------
  // Tables

  /** A table cell: a field as text, or a number followed by its unit. */
  datatype Cell = Text(text: string) | Figure(value: int, unit: string)

  /** The content of a list container. */
  datatype Listing =
    | NoData(text: string)
    | LoadFailed(text: string)
    | Table(header: seq<string>, rows: seq<seq<Cell>>)

  const TmcEmpty := "Нет данных в справочнике"
  const WriteoffsEmpty := "Нет данных о списаниях"
  const ListFailed := "Ошибка загрузки данных"
  const Rub := " руб."
  const Pcs := " шт."

  const TmcHeader := ["Категория", "Наименование", "Дата поступления", "Цена", "Количество", "Сумма"]
  const WriteoffHeader := ["Дата", "Категория", "Наименование", "Количество", "Сумма", "Куда", "Основание"]

  function TmcRow(item: TmcItem): seq<Cell>
  {
    [Text(item.category), Text(item.name), Text(item.receiptDate),
     Figure(item.price, Rub), Figure(item.quantity, Pcs), Figure(item.amount, Rub)]
  }

  function WriteoffRow(w: WriteOff): seq<Cell>
  {
    [Text(w.writeoffDate), Text(w.category), Text(w.itemName),
     Figure(w.quantity, Pcs), Figure(w.totalAmount, Rub), Text(w.destination), Text(w.basis)]
  }

  /** The catalog container after a received list: the placeholder, or one header and one row per item in order. */
  ghost predicate ShowsItems(view: Listing, items: seq<TmcItem>)
  {
    if items == [] then view == NoData(TmcEmpty)
    else
      && view.Table? && view.header == TmcHeader && |view.rows| == |items|
      && forall k :: 0 <= k < |items| ==> view.rows[k] == TmcRow(items[k])
  }

  /** The write-off container after a received list, in the same form. */
  ghost predicate ShowsWriteoffs(view: Listing, ws: seq<WriteOff>)
  {
    if ws == [] then view == NoData(WriteoffsEmpty)
    else
      && view.Table? && view.header == WriteoffHeader && |view.rows| == |ws|
      && forall k :: 0 <= k < |ws| ==> view.rows[k] == WriteoffRow(ws[k])
  }

  /** `loadAllTMC` on a received list: the placeholder, or one header and one row per item in order. */
  method RenderTmcList(items: seq<TmcItem>) returns (view: Listing)
    ensures items == [] <==> view == NoData(TmcEmpty)
    ensures items != [] ==>
              && view.Table? && view.header == TmcHeader && |view.rows| == |items|
              && forall k :: 0 <= k < |items| ==> view.rows[k] == TmcRow(items[k])
  {
    if |items| == 0 {
      return NoData(TmcEmpty);
    }
    var rows: seq<seq<Cell>> := [];
    for i := 0 to |items|
      invariant |rows| == i
      invariant forall k :: 0 <= k < i ==> rows[k] == TmcRow(items[k])
    {
      rows := rows + [TmcRow(items[i])];
    }
    view := Table(TmcHeader, rows);
  }

  /** `loadWriteoffs` on a received list: the placeholder, or one header and one row per write-off in order. */
  method RenderWriteoffList(ws: seq<WriteOff>) returns (view: Listing)
    ensures ws == [] <==> view == NoData(WriteoffsEmpty)
    ensures ws != [] ==>
              && view.Table? && view.header == WriteoffHeader && |view.rows| == |ws|
              && forall k :: 0 <= k < |ws| ==> view.rows[k] == WriteoffRow(ws[k])
  {
    if |ws| == 0 {
      return NoData(WriteoffsEmpty);
    }
    var rows: seq<seq<Cell>> := [];
    for i := 0 to |ws|
      invariant |rows| == i
      invariant forall k :: 0 <= k < i ==> rows[k] == WriteoffRow(ws[k])
    {
      rows := rows + [WriteoffRow(ws[i])];
    }
    view := Table(WriteoffHeader, rows);
  }

  // ---------------------------------------------------------------------------
  // Tabs

  /** `document.getElementById(id)` among the panels: the first one in document order with that id. */
  function FirstIndex(ids: seq<string>, id: string): (r: Option<nat>)
    ensures r.None? <==> id !in ids
    ensures r.Some? ==> r.value < |ids| && ids[r.value] == id && id !in ids[..r.value]
  {
    if ids == [] then None
    else if ids[0] == id then Some(0)
    else
      var rest := FirstIndex(ids[1..], id);
      assert ids == [ids[0]] + ids[1..];
      if rest.None? then None
      else
        assert ids[..rest.value + 1] == [ids[0]] + ids[1..][..rest.value];
        Some(rest.value + 1)
  }

  ghost predicate UniqueIds(ids: seq<string>)
  {
    forall i, j :: 0 <= i < j < |ids| ==> ids[i] != ids[j]
  }

  /** The panel `showTab(name)` un-hides. */
  function PanelId(name: string): string
  {
    name + "-tab"
  }

  /**
    After `showTab`, when the panel ids are unique (as HTML requires), a panel is
    visible exactly when it is the requested one; in particular an unknown name
    leaves every panel hidden.
   */
  lemma {:induction false} OnlyRequestedPanelVisible(ids: seq<string>, name: string, hidden: seq<bool>)
    requires UniqueIds(ids)
    requires |hidden| == |ids|
    requires forall k :: 0 <= k < |ids| ==> hidden[k] == (FirstIndex(ids, PanelId(name)) != Some(k))
    ensures forall k :: 0 <= k < |ids| ==> (!hidden[k] <==> ids[k] == PanelId(name))
  {
    var target := FirstIndex(ids, PanelId(name));
    forall k | 0 <= k < |ids| && ids[k] == PanelId(name)
      ensures target == Some(k)
    {
      assert ids[k] in ids;
    }
  }

  /** The loaders `showTab` starts for each panel. */
  function TabLoads(name: string): (loads: seq<Load>)
    ensures |loads| <= 2
    ensures Categories in loads <==> name == "writeoff"
    ensures Writeoffs in loads <==> name == "writeoff"
    ensures Destinations in loads <==> name == "stats"
    ensures TmcList in loads <==> name == "tmc"
    ensures Names !in loads
  {
    match name
    case "writeoff" => [Categories, Writeoffs]
    case "stats" => [Destinations]
    case "tmc" => [TmcList]
    case _ => []
  }

  /**
    The characters `String.prototype.trim` removes: the ECMAScript white space
    (tab, vertical tab, form feed, the space separators and the byte order mark)
    and the line terminators.
   */
  predicate IsTrimmed(c: char)
  {
    c in TrimmedChars
  }

  const TrimmedChars: set<char> := {
    '\t', '\n', '\r', '\U{B}', '\U{C}', ' ', '\U{A0}', '\U{1680}',
    '\U{2000}', '\U{2001}', '\U{2002}', '\U{2003}', '\U{2004}', '\U{2005}',
    '\U{2006}', '\U{2007}', '\U{2008}', '\U{2009}', '\U{200A}',
    '\U{2028}', '\U{2029}', '\U{202F}', '\U{205F}', '\U{3000}', '\U{FEFF}'}

  /** The number of trimmed characters at the front of `s`. */
  function LeadingTrimmed(s: string): (n: nat)
    ensures n <= |s|
    ensures forall k :: 0 <= k < n ==> IsTrimmed(s[k])
    ensures n < |s| ==> !IsTrimmed(s[n])
  {
    if s != [] && IsTrimmed(s[0]) then 1 + LeadingTrimmed(s[1..]) else 0
  }

  /** The number of trimmed characters at the end of `s`. */
  function TrailingTrimmed(s: string): (n: nat)
    ensures n <= |s|
    ensures forall k :: |s| - n <= k < |s| ==> IsTrimmed(s[k])
    ensures n < |s| ==> !IsTrimmed(s[|s| - n - 1])
  {
    if s != [] && IsTrimmed(s[|s| - 1]) then 1 + TrailingTrimmed(s[..|s| - 1]) else 0
  }

  /**
    `String.prototype.trim`: the middle of `s` left once the white space on both
    sides is cut off. The result neither starts nor ends with white space, and
    everything cut off is white space.
   */
  function Trim(s: string): (r: string)
    ensures LeadingTrimmed(s) + |r| <= |s|
    ensures r == s[LeadingTrimmed(s)..LeadingTrimmed(s) + |r|]
    ensures forall k :: LeadingTrimmed(s) + |r| <= k < |s| ==> IsTrimmed(s[k])
    ensures r != [] ==> !IsTrimmed(r[0]) && !IsTrimmed(r[|r| - 1])
    ensures (s == [] || (!IsTrimmed(s[0]) && !IsTrimmed(s[|s| - 1]))) ==> r == s
  {
    var i := LeadingTrimmed(s);
    var n := TrailingTrimmed(s[i..]);
    TrimSlice(s, i, n);
    s[i..|s| - n]
  }

  /** Where `Trim` cuts: after the leading and before the trailing white space. */
  lemma TrimSlice(s: string, i: nat, n: nat)
    requires i == LeadingTrimmed(s) && n == TrailingTrimmed(s[i..])
    ensures i <= |s| - n
    ensures forall k :: |s| - n <= k < |s| ==> IsTrimmed(s[k])
    ensures i < |s| - n ==> !IsTrimmed(s[i]) && !IsTrimmed(s[|s| - n - 1])
    ensures (s == [] || (!IsTrimmed(s[0]) && !IsTrimmed(s[|s| - 1]))) ==> i == 0 && n == 0
  {
    TailOfSlice(s, i, n, IsTrimmed);
    SliceEnds(s, s[i..], i, n, IsTrimmed);
  }

  /** A property of the last `n` elements of `s[i..]` holds of the last `n` elements of `s`. */
  lemma TailOfSlice<T>(s: seq<T>, i: nat, n: nat, P: T -> bool)
    requires i <= |s| && n <= |s| - i
    requires forall k :: |s[i..]| - n <= k < |s[i..]| ==> P(s[i..][k])
    ensures forall k :: |s| - n <= k < |s| ==> P(s[k])
  {
    forall k | |s| - n <= k < |s|
      ensures P(s[k])
    {
      assert s[k] == s[i..][k - i];
    }
  }

  /** The elements next to the cuts are kept, and nothing is cut from a string whose ends are kept. */
  lemma SliceEnds(s: string, rest: string, i: nat, n: nat, P: char -> bool)
    requires i <= |s| && rest == s[i..] && n <= |rest|
    requires forall k :: 0 <= k < i ==> P(s[k])
    requires i < |s| ==> !P(s[i])
    requires forall k :: |rest| - n <= k < |rest| ==> P(rest[k])
    requires n < |rest| ==> !P(rest[|rest| - n - 1])
    ensures i < |s| - n ==> !P(s[i]) && !P(s[|s| - n - 1])
    ensures (s == [] || (!P(s[0]) && !P(s[|s| - 1]))) ==> i == 0 && n == 0
  {
    if i < |s| - n {
      assert s[|s| - n - 1] == rest[|rest| - n - 1];
    }
    if s != [] && !P(s[0]) && !P(s[|s| - 1]) {
      assert i == 0;
      assert rest == s;
    }
  }

  /**
    The panel a navigation button opens, by its trimmed label (app.js switches on
    `this.textContent.trim()`), and the loader it starts beyond `showTab`'s.
   */
  function NavTarget(caption: string): (target: Option<(string, seq<Load>)>)
    ensures target.None? <==> Trim(caption) !in {"Списание ТМЦ", "Статистика", "Справочник ТМЦ"}
    ensures target.Some? ==> TabLoads(target.value.0) != []
    ensures Trim(caption) == "Списание ТМЦ" ==> target == Some(("writeoff", [Writeoffs]))
    ensures Trim(caption) == "Статистика" ==> target == Some(("stats", []))
    ensures Trim(caption) == "Справочник ТМЦ" ==> target == Some(("tmc", [TmcList]))
  {
    match Trim(caption)
    case "Списание ТМЦ" => Some(("writeoff", [Writeoffs]))
    case "Статистика" => Some(("stats", []))
    case "Справочник ТМЦ" => Some(("tmc", [TmcList]))
    case _ => None
  }

  /** White space in front of `x` adds its length to the leading count. */
  lemma {:induction false} LeadingAfterSpace(p: string, x: string)
    requires forall k :: 0 <= k < |p| ==> IsTrimmed(p[k])
    ensures LeadingTrimmed(p + x) == |p| + LeadingTrimmed(x)
  {
    if p == [] {
      assert p + x == x;
    } else {
      assert (p + x)[0] == p[0];
      assert (p + x)[1..] == p[1..] + x;
      LeadingAfterSpace(p[1..], x);
    }
  }

  /** White space after `x` adds its length to the trailing count. */
  lemma {:induction false} TrailingBeforeSpace(x: string, q: string)
    requires forall k :: 0 <= k < |q| ==> IsTrimmed(q[k])
    ensures TrailingTrimmed(x + q) == |q| + TrailingTrimmed(x)
  {
    if q == [] {
      assert x + q == x;
    } else {
      assert (x + q)[|x + q| - 1] == q[|q| - 1];
      assert (x + q)[..|x + q| - 1] == x + q[..|q| - 1];
      TrailingBeforeSpace(x, q[..|q| - 1]);
    }
  }

  /** Trimming white space off both sides of a caption gives back the caption. */
  /** `Trim` cuts at the end of the leading and the start of the trailing white space. */
  lemma TrimAt(s: string, i: nat, j: nat)
    requires i <= j <= |s|
    requires LeadingTrimmed(s) == i && TrailingTrimmed(s[i..]) == |s| - j
    ensures Trim(s) == s[i..j]
  {
  }

  lemma TrimPadded(p: string, caption: string, q: string)
    requires forall k :: 0 <= k < |p| ==> IsTrimmed(p[k])
    requires forall k :: 0 <= k < |q| ==> IsTrimmed(q[k])
    requires caption == [] || (!IsTrimmed(caption[0]) && !IsTrimmed(caption[|caption| - 1]))
    ensures Trim(p + caption + q) == caption
  {
    var s := p + caption + q;
    assert s == p + (caption + q);
    LeadingAfterSpace(p, caption + q);
    assert s[|p|..] == caption + q;
    if caption == [] {
      assert caption + q == q;
      LeadingAfterSpace(q, []);
      assert q + [] == q;
    } else {
      var rest := caption + q;
      assert rest[0] == caption[0];
      assert LeadingTrimmed(rest) == 0;
      TrailingBeforeSpace(caption, q);
      assert TrailingTrimmed(caption) == 0;
      TrimAt(s, |p|, |p| + |caption|);
      assert s[|p|..|p| + |caption|] == caption;
    }
  }

  /**
    White space around a caption does not change the panel it opens, as the
    handler trims `textContent` before switching on it.
   */
  lemma CaptionPaddingIgnored(p: string, caption: string, q: string)
    requires forall k :: 0 <= k < |p| ==> IsTrimmed(p[k])
    requires forall k :: 0 <= k < |q| ==> IsTrimmed(q[k])
    requires caption == [] || (!IsTrimmed(caption[0]) && !IsTrimmed(caption[|caption| - 1]))
    ensures NavTarget(p + caption + q) == NavTarget(caption)
  {
    TrimPadded(p, caption, q);
  }
}
