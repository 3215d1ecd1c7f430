/**
 * The records of utils/model.py: an `Access` built from the seven groups of a
 * log line, a `Position` built from the "lat,lon" text of a lookup, the
 * `Continent`, `Country` and `City` that hold the lookup's values, and the
 * `Event` that pairs an access with its city; each with the dictionary its
 * `__dict__` method serialises it to.
 */
module Model {
  import opened Wrappers
  import opened Text
  import opened Values
  import Patterns
  import Address
  import Timestamp
  import Query

  /** What `user_agents.parse(text)` reports through `get_browser()`, `get_os()` and `get_device()`. */
  datatype UserAgent = UserAgent(browser: string, os: string, device: string)

  /** The library functions the records call; their internals are not part of this model. */
  datatype Libraries = Libraries(
    formatSize: int -> Option<string>,    // humanfriendly.format_size; None where it raises OverflowError
    unquote: string -> string,            // urllib.parse.unquote
    netlocAccepted: string -> bool,       // urlsplit's bracketed-host and NFKC checks
    parseUserAgent: string -> UserAgent,  // user_agents.parse
    toFloat: string -> Option<Float>)     // float(text); None where it raises ValueError

  /** The exceptions the constructors raise. */
  datatype Error =
    | FieldCount(got: nat)     // ValueError: not exactly seven groups
    | BadAddress               // IPv4Address raises AddressValueError
    | BadTimestamp             // strptime raises ValueError
    | BadRequest(pieces: nat)  // the request does not unpack into three space-separated words
    | BadUrl                   // urlparse raises ValueError
    | BadStatus                // int(status) raises ValueError
    | BadSize                  // int(size) raises ValueError
    | SizeOverflow             // format_size raises OverflowError: the size is past the float range
    | NotText                  // loc.split on a value that is not a string
    | BadLocation(parts: nat)  // ValueError: the location is not two comma-separated parts
    | BadCoordinate            // float() raises ValueError
    | BadContinent             // Continent(**value) raises TypeError

  function Need<T>(o: Option<T>, e: Error): (r: Result<T, Error>)
    ensures r.Ok? <==> o.Some?
    ensures r.Ok? ==> r.value == o.value
    ensures r.Err? ==> r.error == e
  {
    match o
    case Some(v) => Ok(v)
    case None => Err(e)
  }

  // ---------------------------------------------------------------- Access

  datatype Access = Access(
    ip: Address.IPv4,
    time: Timestamp.DateTime,
    query: Query.Multi,
    status: int,
    size: string,
    referer: Option<string>,
    userAgent: UserAgent)

  /** `Access(data)`: `__post_init__`'s checks and conversions, in its order. */
  function NewAccess(data: seq<string>, libs: Libraries): (r: Result<Access, Error>)
    ensures r.Ok? <==>
      && |data| == 7 && Address.ParseIPv4(data[0]).Some? && Timestamp.ParseTimestamp(data[1]).Some?
      && RequestQuery(data[2], libs.netlocAccepted).Ok? && PyInt(data[3]).Some?
      && PyInt(data[4]).Some? && libs.formatSize(PyInt(data[4]).value).Some?
  {
    if |data| != 7 then Err(FieldCount(|data|))
    else
      var ip :- Need(Address.ParseIPv4(data[0]), BadAddress);
      var time :- Need(Timestamp.ParseTimestamp(data[1]), BadTimestamp);
      var query :- RequestQuery(data[2], libs.netlocAccepted);
      var status :- Need(PyInt(data[3]), BadStatus);
      var bytes :- Need(PyInt(data[4]), BadSize);
      var size :- Need(libs.formatSize(bytes), SizeOverflow);
      Ok(Access(ip, time, Query.ParseQs(query, libs.unquote), status, size,
                if data[5] == "-" then None else Some(data[5]), libs.parseUserAgent(data[6])))
  }

  /** `_, request, _ = request.split(" ")`, then `urlparse(request).query`. */
  function RequestQuery(request: string, netlocAccepted: string -> bool): Result<string, Error> {
    var words := Split(request, ' ');
    if |words| != 3 then Err(BadRequest(|words|))
    else Need(Query.QueryText(words[1], netlocAccepted), BadUrl)
  }

  function QueryValue(q: Query.Multi): (r: Value)
    ensures r.Dict? && |r.entries| == |q|
    ensures forall i :: 0 <= i < |q| ==> r.entries[i] == (q[i].0, Strs(q[i].1))
  {
    if q == [] then Dict([]) else Dict([(q[0].0, Strs(q[0].1))] + QueryValue(q[1..]).entries)
  }

  /** The `user_agent` entry: what the parsed agent reports for its browser, OS and device. */
  function UserAgentValue(u: UserAgent): (r: Value)
    ensures r.Dict? && Keys(r.entries) == ["browser", "os", "device"]
    ensures Get(r.entries, "browser") == Some(Str(u.browser)) && Get(r.entries, "os") == Some(Str(u.os))
    ensures Get(r.entries, "device") == Some(Str(u.device))
  {
    var d := [("browser", Str(u.browser)), ("os", Str(u.os)), ("device", Str(u.device))];
    GetAt(d, 2, "device");
    Dict(d)
  }

  /** The referer as stored: `None` or the text. */
  function RefererValue(referer: Option<string>): Value {
    match referer
    case None => Null
    case Some(s) => Str(s)
  }

  /** `Access.__dict__()`: the seven fields under their names, in declaration order. */
  function AccessDict(a: Access): (r: Value)
    ensures r.Dict? && |r.entries| == |AccessKeys|
    ensures forall j :: 0 <= j < |AccessKeys| ==> r.entries[j].0 == AccessKeys[j]
    ensures Keys(r.entries) == AccessKeys
  {
    var ip, time, query := Str(Address.Compressed(a.ip)), Str(Timestamp.AsWrittenTimeText(a.time)), QueryValue(a.query);
    var status, size, referer, userAgent := Int(a.status), Str(a.size), RefererValue(a.referer), UserAgentValue(a.userAgent);
    SevenKeyed(ip, time, query, status, size, referer, userAgent);
    Dict([("ip", ip), ("time", time), ("query", query), ("status", status), ("size", size),
          ("referer", referer), ("user_agent", userAgent)])
  }

  // ---------------------------------------------------------------- Position

  datatype Position = Position(latitude: Float, longitude: Float)

  /** `Position(loc)`: two comma-separated parts, each read by `float`. */
  function NewPosition(loc: Value, toFloat: string -> Option<Float>): (r: Result<Position, Error>)
    ensures !loc.Str? ==> r == Err(NotText)
    ensures r.Ok? ==>
      && loc.Str? && Count(loc.s, ',') == 1
      && toFloat(Split(loc.s, ',')[0]) == Some(r.value.latitude)
      && toFloat(Split(loc.s, ',')[1]) == Some(r.value.longitude)
  {
    if !loc.Str? then Err(NotText)
    else
      var parts := Split(loc.s, ',');
      if |parts| != 2 then Err(BadLocation(|parts|))
      else
        var latitude :- Need(toFloat(parts[0]), BadCoordinate);
        var longitude :- Need(toFloat(parts[1]), BadCoordinate);
        Ok(Position(latitude, longitude))
  }

  /** `asdict(position)`. */
  function PositionDict(p: Position): (r: Value)
    ensures r.Dict? && Keys(r.entries) == ["latitude", "longitude"]
    ensures Get(r.entries, "latitude") == Some(Num(p.latitude)) && Get(r.entries, "longitude") == Some(Num(p.longitude))
  {
    Dict([("latitude", Num(p.latitude)), ("longitude", Num(p.longitude))])
  }

  // ---------------------------------------------------------------- Continent, Country, City, Event

  /** The dataclasses do not check their field types: each field holds whatever value it was given. */
  datatype Continent = Continent(code: Value, name: Value)

  datatype Country = Country(name: Value, code: Value, continent: Continent)

  datatype City = City(name: Value, region: Value, country: Country, position: Position)

  datatype Event = Event(access: Access, city: City)

  predicate IsContinentField(key: string) { key == "code" || key == "name" }

  /**
   * `Continent(**v)`: `v` must be a dictionary whose keys are exactly the
   * field names; otherwise the call raises TypeError.
   */
  function NewContinent(v: Value): (r: Result<Continent, Error>)
    ensures r.Ok? ==> v.Dict? && forall i :: 0 <= i < |v.entries| ==> IsContinentField(v.entries[i].0)
    ensures r.Ok? ==> Get(v.entries, "code") == Some(r.value.code) && Get(v.entries, "name") == Some(r.value.name)
  {
    if !v.Dict? || exists i :: 0 <= i < |v.entries| && !IsContinentField(v.entries[i].0) then Err(BadContinent)
    else
      match (Get(v.entries, "code"), Get(v.entries, "name"))
      case (Some(code), Some(name)) => Ok(Continent(code, name))
      case _ => Err(BadContinent)
  }

  function ContinentDict(c: Continent): (r: Value)
    ensures r.Dict? && Keys(r.entries) == ["code", "name"]
    ensures Get(r.entries, "code") == Some(c.code) && Get(r.entries, "name") == Some(c.name)
  {
    Dict([("code", c.code), ("name", c.name)])
  }

  function CountryDict(c: Country): (r: Value)
    ensures r.Dict? && Keys(r.entries) == ["name", "code", "continent"]
    ensures Get(r.entries, "name") == Some(c.name) && Get(r.entries, "code") == Some(c.code)
    ensures Get(r.entries, "continent") == Some(ContinentDict(c.continent))
  {
    var d := [("name", c.name), ("code", c.code), ("continent", ContinentDict(c.continent))];
    GetAt(d, 2, "continent");
    Dict(d)
  }

  /** `asdict(city)`, which recurses into the country, its continent and the position. */
  function CityDict(c: City): (r: Value)
    ensures r.Dict? && Keys(r.entries) == ["name", "region", "country", "position"]
    ensures Get(r.entries, "name") == Some(c.name) && Get(r.entries, "region") == Some(c.region)
    ensures Get(r.entries, "country") == Some(CountryDict(c.country))
    ensures Get(r.entries, "position") == Some(PositionDict(c.position))
  {
    var d := [("name", c.name), ("region", c.region), ("country", CountryDict(c.country)),
              ("position", PositionDict(c.position))];
    GetAt(d, 2, "country");
    GetAt(d, 3, "position");
    Dict(d)
  }

  /** `Event.__dict__()`. */
  function EventDict(e: Event): (r: Value)
    ensures r.Dict? && Keys(r.entries) == ["access", "city"]
    ensures Get(r.entries, "access") == Some(AccessDict(e.access)) && Get(r.entries, "city") == Some(CityDict(e.city))
  {
    Dict([("access", AccessDict(e.access)), ("city", CityDict(e.city))])
  }

  // ---------------------------------------------------------------- Access lemmas

  /** What a built access holds, field by field. */
  lemma AccessParts(data: seq<string>, libs: Libraries)
    requires NewAccess(data, libs).Ok?
    ensures |data| == 7 && RequestQuery(data[2], libs.netlocAccepted).Ok?
    ensures var a := NewAccess(data, libs).value;
      && Address.ParseIPv4(data[0]) == Some(a.ip)
      && Timestamp.ParseTimestamp(data[1]) == Some(a.time)
      && a.query == Query.ParseQs(RequestQuery(data[2], libs.netlocAccepted).value, libs.unquote)
      && PyInt(data[3]) == Some(a.status)
      && PyInt(data[4]).Some? && libs.formatSize(PyInt(data[4]).value) == Some(a.size)
      && a.referer == (if data[5] == "-" then None else Some(data[5]))
      && a.userAgent == libs.parseUserAgent(data[6])
  {
  }

  /** The entries of `Access.__dict__()`, key by key. */
  lemma AccessDictEntries(a: Access)
    ensures Get(AccessDict(a).entries, "ip") == Some(Str(Address.Compressed(a.ip)))
    ensures Get(AccessDict(a).entries, "time") == Some(Str(Timestamp.AsWrittenTimeText(a.time)))
    ensures Timestamp.Valid(a.time) && !(0 < a.time.offset < Timestamp.MicrosPerMinute)
            ==> Get(AccessDict(a).entries, "time") == Some(Str(Timestamp.TimeText(a.time)))
    ensures Get(AccessDict(a).entries, "status") == Some(Int(a.status))
    ensures Get(AccessDict(a).entries, "referer") == Some(RefererValue(a.referer))
    ensures Get(AccessDict(a).entries, "query") == Some(QueryValue(a.query))
    ensures Get(AccessDict(a).entries, "size") == Some(Str(a.size))
    ensures Get(AccessDict(a).entries, "user_agent") == Some(UserAgentValue(a.userAgent))
  {
    AccessKeyed(AccessDict(a).entries);
    if Timestamp.Valid(a.time) {
      Timestamp.AsWrittenAgreesUnlessSubMinute(a.time);
    }
  }

  lemma SevenKeyed(v0: Value, v1: Value, v2: Value, v3: Value, v4: Value, v5: Value, v6: Value)
    ensures var d := [("ip", v0), ("time", v1), ("query", v2), ("status", v3), ("size", v4), ("referer", v5), ("user_agent", v6)];
      && |d| == |AccessKeys| && (forall j :: 0 <= j < |AccessKeys| ==> d[j].0 == AccessKeys[j])
      && Keys(d) == AccessKeys
  {
    var d := [("ip", v0), ("time", v1), ("query", v2), ("status", v3), ("size", v4), ("referer", v5), ("user_agent", v6)];
    KeysAre(d, AccessKeys);
  }

  lemma AccessKeyed(d: seq<(string, Value)>)
    requires |d| == |AccessKeys| && forall j :: 0 <= j < |d| ==> d[j].0 == AccessKeys[j]
    ensures Get(d, "ip") == Some(d[0].1) && Get(d, "time") == Some(d[1].1)
    ensures Get(d, "query") == Some(d[2].1) && Get(d, "status") == Some(d[3].1)
    ensures Get(d, "size") == Some(d[4].1) && Get(d, "referer") == Some(d[5].1)
    ensures Get(d, "user_agent") == Some(d[6].1)
  {
    AccessKeysDistinct();
    GetAt(d, 0, "ip");
    GetAt(d, 1, "time");
    GetAt(d, 2, "query");
    GetAt(d, 3, "status");
    GetAt(d, 4, "size");
    GetAt(d, 5, "referer");
    GetAt(d, 6, "user_agent");
  }

  /** The keys of `Access.__dict__()`, in order. */
  const AccessKeys: seq<string> := ["ip", "time", "query", "status", "size", "referer", "user_agent"]

  lemma AccessKeysDistinct()
    ensures forall j, k :: 0 <= j < k < |AccessKeys| ==> AccessKeys[j] != AccessKeys[k]
  {
  }

  /**
   * A built access serialises back to the text it was read from: the address
   * as written, the status as `int` read it, the referer as `None` exactly
   * for "-", and the time in its ISO form.
   */
  lemma SerialisedAccess(data: seq<string>, libs: Libraries)
    requires NewAccess(data, libs).Ok?
    ensures var d := AccessDict(NewAccess(data, libs).value).entries;
      && Get(d, "ip") == Some(Str(data[0]))
      && Get(d, "time") == Some(Str(Timestamp.AsWrittenTimeText(Timestamp.ParseTimestamp(data[1]).value)))
      && Get(d, "status") == Some(Int(PyInt(data[3]).value))
      && (Get(d, "referer") == Some(Null) <==> data[5] == "-")
      && (data[5] != "-" ==> Get(d, "referer") == Some(Str(data[5])))
  {
    AccessParts(data, libs);
    AccessDictEntries(NewAccess(data, libs).value);
    Address.CompressedIsInput(data[0]);
  }

  /** Each exception names the check that raised it. */
  lemma AccessError(data: seq<string>, libs: Libraries)
    requires NewAccess(data, libs).Err?
    ensures var e := NewAccess(data, libs).error;
      && (e.FieldCount? <==> |data| != 7)
      && (e.FieldCount? ==> e.got == |data|)
      && (e.BadAddress? ==> Address.ParseIPv4(data[0]).None?)
      && (e.BadTimestamp? ==> Timestamp.ParseTimestamp(data[1]).None?)
      && (e.BadRequest? || e.BadUrl? ==> RequestQuery(data[2], libs.netlocAccepted) == Err(e))
      && (e.BadStatus? ==> PyInt(data[3]).None?)
      && (e.BadSize? ==> PyInt(data[4]).None?)
      && (e.SizeOverflow? ==> PyInt(data[4]).Some? && libs.formatSize(PyInt(data[4]).value).None?)
      && !e.NotText? && !e.BadLocation? && !e.BadCoordinate? && !e.BadContinent?
  {
    if |data| == 7 && Address.ParseIPv4(data[0]).Some? && Timestamp.ParseTimestamp(data[1]).Some? {
      if RequestQuery(data[2], libs.netlocAccepted).Err? {
        assert NewAccess(data, libs) == Err(RequestQuery(data[2], libs.netlocAccepted).error);
      } else if PyInt(data[3]).None? {
        assert NewAccess(data, libs) == Err(BadStatus);
      } else if PyInt(data[4]).None? {
        assert NewAccess(data, libs) == Err(BadSize);
      } else {
        assert NewAccess(data, libs) == Err(SizeOverflow);
      }
    }
  }

  /**
   * The groups of a grammar match always have the right count and a status of
   * three digits, so building an access from them can fail only on the
   * address, the timestamp, the request line, the URL, a size too long
   * for `int`, or a size that `format_size` cannot convert to a float.
   */
  lemma MatchedAccess(g: Patterns.Groups, libs: Libraries)
    requires Patterns.WellFormed(g)
    ensures var r := NewAccess(Patterns.Tuple(g), libs);
      && (r.Err? ==> r.error.BadAddress? || r.error.BadTimestamp? || r.error.BadRequest?
                     || r.error.BadUrl? || r.error.BadSize? || r.error.SizeOverflow?)
      && (r.Err? && r.error.BadRequest? ==> r.error.pieces == Count(g.request, ' ') + 1 != 3)
      && (r.Err? && r.error.BadSize? ==> |g.size| > MaxStrDigits)
      && (r.Ok? ==> r.value.status == DigitsValue(g.status) && 0 <= r.value.status < 1000)
  {
    var data := Patterns.Tuple(g);
    var r := NewAccess(data, libs);
    DigitRunToInt(g.status);
    ThreeDigits(g.status);
    if |g.size| <= MaxStrDigits {
      DigitRunToInt(g.size);
    }
    if r.Err? {
      AccessError(data, libs);
      RequestShape(g.request, libs.netlocAccepted);
    } else {
      AccessParts(data, libs);
    }
  }

  lemma ThreeDigits(s: string)
    requires |s| == 3 && All(s, IsDigit)
    ensures DigitsValue(s) < 1000
  {
    DigitsBound(s);
    assert Pow10(3) == 1000;
  }

  /** A request line of three space-free words splits into those words. */
  lemma RequestWords(verb: string, target: string, version: string)
    requires ' ' !in verb && ' ' !in target && ' ' !in version
    ensures Split(verb + " " + target + " " + version, ' ') == [verb, target, version]
  {
    var words := [verb, target, version];
    SplitOfJoin(words, ' ');
    assert Join(words[2..], ' ') == version;
    assert Join(words[1..], ' ') == target + [' '] + version;
    assert verb + " " + target + " " + version == Join(words, ' ');
  }

  /**
   * A request line `METHOD target VERSION` whose target is in origin form,
   * `path?query`, yields that query.
   */
  lemma RequestQueryOfOriginForm(verb: string, path: string, query: string, version: string,
                                 netlocAccepted: string -> bool)
    requires ' ' !in verb && ' ' !in path && ' ' !in query && ' ' !in version
    requires path != [] && path[0] == '/' && (|path| >= 2 ==> path[1] != '/')
    requires '?' !in path && '#' !in path && '#' !in query
    requires All(path + "?" + query, Query.IsSafe)
    ensures RequestQuery(verb + " " + (path + "?" + query) + " " + version, netlocAccepted) == Ok(query)
  {
    var target := path + "?" + query;
    assert ' ' !in target;
    RequestWords(verb, target, version);
    assert path + "?" + query + [] == target;
    Query.OriginFormQuery(path, query, [], netlocAccepted);
  }

  /** A request line that is not three space-separated words is refused for its word count. */
  lemma RequestShape(request: string, netlocAccepted: string -> bool)
    ensures RequestQuery(request, netlocAccepted).Err? && RequestQuery(request, netlocAccepted).error.BadRequest?
            <==> Count(request, ' ') != 2
    ensures Count(request, ' ') != 2 ==> RequestQuery(request, netlocAccepted) == Err(BadRequest(Count(request, ' ') + 1))
  {
  }

  // ---------------------------------------------------------------- Position lemmas

  /** A location of two comma-free parts that `float` reads is the position of those two values. */
  lemma PositionOfParts(a: string, b: string, toFloat: string -> Option<Float>)
    requires ',' !in a && ',' !in b && toFloat(a).Some? && toFloat(b).Some?
    ensures NewPosition(Str(a + "," + b), toFloat) == Ok(Position(toFloat(a).value, toFloat(b).value))
  {
    SplitWithout(b, ',');
    SplitAtFirst(a, ',', b);
    assert a + "," + b == a + [','] + b;
  }

  /** A location text is refused for its shape exactly when it does not hold exactly one comma. */
  lemma PositionShape(s: string, toFloat: string -> Option<Float>)
    ensures NewPosition(Str(s), toFloat).Err? && NewPosition(Str(s), toFloat).error.BadLocation?
            <==> Count(s, ',') != 1
    ensures Count(s, ',') != 1 ==> NewPosition(Str(s), toFloat) == Err(BadLocation(Count(s, ',') + 1))
  {
  }

  // ---------------------------------------------------------------- Continent lemmas

  /** `Continent(**asdict(c))` is `c`. */
  lemma ContinentRoundTrip(c: Continent)
    ensures NewContinent(ContinentDict(c)) == Ok(c)
  {
    var d := ContinentDict(c).entries;
    assert forall i :: 0 <= i < |d| ==> IsContinentField(d[i].0);
    assert Get(d, "code") == Some(c.code);
    assert d[1..] == [("name", c.name)];
    assert Get(d, "name") == Get(d[1..], "name") == Some(c.name);
  }

  /** A continent built from a dictionary serialises to the same key lookups. */
  lemma ContinentFromDict(v: Value)
    requires NewContinent(v).Ok?
    ensures forall k :: Get(ContinentDict(NewContinent(v).value).entries, k) == Get(v.entries, k)
  {
    var c := NewContinent(v).value;
    forall k ensures Get(ContinentDict(c).entries, k) == Get(v.entries, k) {
      var d := ContinentDict(c).entries;
      if !IsContinentField(k) {
        GetFinds(v.entries, k);
        assert k !in Keys(v.entries);
        GetFinds(d, k);
        assert Keys(d) == ["code", "name"];
      } else if k == "name" {
        assert d[1..] == [("name", c.name)];
      }
    }
  }

  /** A value that is not a dictionary, or that has a key other than the two fields, is refused. */
  lemma ContinentRefused(v: Value)
    ensures !v.Dict? ==> NewContinent(v) == Err(BadContinent)
    ensures v.Dict? && Get(v.entries, "code").None? ==> NewContinent(v) == Err(BadContinent)
    ensures v.Dict? && (exists i :: 0 <= i < |v.entries| && !IsContinentField(v.entries[i].0))
            ==> NewContinent(v) == Err(BadContinent)
  {
  }
}
