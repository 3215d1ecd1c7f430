# nginx access-log digest, modelled in Dafny

The digest reads an nginx access log line by line. It matches each line
against a fixed grammar: address, `- -`, `[date]`, `"request"`, status, size,
`"referer"`, `"user agent"` and a final `"-"`. From the seven captured groups
it builds an `Access` record. It then asks a geolocation service about the
address and skips the line when the answer marks a bogon address. Otherwise
it builds a `City` (with its `Country`, `Continent` and `Position`) from the
answer and appends the `Event` that pairs the two to a data frame. When every
line is done, the frame is written out as CSV.

The model has one module per concern:

- `Patterns` (patterns.dfy) holds the line grammar twice. One copy is a reference grammar: `Render` of well-formed `Groups`. The other is the recognizer `Search`, which models `re.search`. They are proved to agree, and the grammar is proved unambiguous.
- `Model` (model.dfy) holds the records and their builders, as functions returning a `Result`, and their `__dict__` serialisers.
- `Script` (script.dfy) holds the loop. It is a `Process` method over a `Frame` class whose `rows` grow at the end. It is proved against `Digest`, a function over the lines, whose properties are lemmas.
- The standard-library behaviour that the records depend on has its own module:
  - `Address` (address.dfy): `ipaddress.IPv4Address` and its `compressed` form.
  - `Timestamp` (timestamp.dfy): `datetime.strptime` with `%d/%b/%Y:%H:%M:%S %z`, and `isoformat`.
  - `Query` (query.dfy): `urlsplit(...).query` and `parse_qs`.
  - `Text` (text.dfy): `str.split`, `str.replace`, `int()` and `str(n)`.
  - `Values` (values.dfy): the Python values of the lookup and of the serialised dictionaries.

Some collaborators are parameters, because their internals are not modelled:

- In `Model.Libraries`:
  - `format_size`, which may refuse a size (it raises OverflowError for a size past the float range);
  - `unquote`, the percent-decoding that `parse_qs` applies;
  - the network-location checks of `urlsplit`;
  - `user_agents.parse`;
  - `float`.
- In `Script.Lookup`: the geolocation lookup, a function from an address to the dictionary of its details.

Behaviour of the code worth noting:

- A line that does not match, or a record that cannot be built, raises. The exception ends the whole run before the CSV is written.
- `format_size` is called with its defaults (decimal units). It stays abstract.
- The status is serialised as the integer `int()` read, so the text "099" comes back as 99.
- The data frame has the two columns `access` and `city`, which hold dictionaries.
- The time is serialised as the code writes it, `isoformat().replace("+00:00", "Z")`, which is not always a plain ISO text with "Z" for UTC (see "## Findings"). `Timestamp.TimeText` is the intended serialiser, kept beside it with its own properties.

## Model

| member | source | states |
|---|---|---|
| Patterns.Search | utils/patterns.py:1-7 | A match sits at the leftmost position where the reference grammar occurs. The line is the text before it, the rendering of the well-formed groups, and the text after it. There is no match exactly when the grammar occurs nowhere. |
| Patterns.RecognizerExact | utils/patterns.py:1-7 | The recognizer, anchored at a position, returns the groups `g` exactly when `g` is well formed and its rendering starts the text. |
| Patterns.Recognized | utils/patterns.py:1-7 | A well-formed rendering is recognized with exactly its own groups, whatever follows it. |
| Patterns.Unambiguous | utils/patterns.py:7 | At one position at most one set of groups fits, so the regex engine's backtracking order cannot change the captures. |
| Patterns.MatchPrefix | utils/patterns.py:1-7 | Whatever the recognizer returns is well formed, and its rendering is a prefix of the text. |
| Patterns.Field | utils/patterns.py:2-3 | A bracketed or quoted group is a non-empty run of characters other than its delimiter, followed by the closing literal. |
| Patterns.IpShapeChars | utils/patterns.py:1 | The IP group holds only digits and dots, 4 to 16 of them. |
| Patterns.EmptyRefererRejected | utils/patterns.py:3-7 | An empty quoted referer `""` is not matched at the position where the line starts, even when every other group is well formed. |
| Patterns.EmptyUserAgentRejected | utils/patterns.py:3-7 | An empty quoted user agent is not matched at the position where the line starts either. |
| Patterns.NoTrailerNoMatch | utils/patterns.py:7 | A line without the closing `" "-"` anywhere never matches. |
| Patterns.NoDashesNoMatch | utils/patterns.py:7 | A line without ` - - ` anywhere never matches. |
| Address.AddressFitsGrammar | utils/patterns.py:1 | Every text that `IPv4Address` accepts fits the IP group. |
| Address.GrammarAdmitsNonAddress | utils/patterns.py:1 | The converse fails: "1234" fits the IP group, but `IPv4Address` refuses it. |
| Address.ParseIPv4 | utils/model.py:29 | An accepted address text splits at its dots into exactly the decimal texts of its four octets. |
| Address.Compressed | utils/model.py:41 | The compressed form is non-empty, has no '/', and splits at its dots into the decimal texts of the four octets. |
| Address.ParseCompressed | utils/model.py:41 | Parsing the compressed form of an address gives the address back. |
| Address.CompressedIsInput | utils/model.py:29-41 | An accepted address text is already compressed: the serialised "ip" equals the captured group. |
| Address.OctetOfDec | utils/model.py:29 | The octet parser reads `str(n)` back as `n`. |
| Address.DecOfOctet | utils/model.py:29 | An accepted octet text is `str` of its value: no leading zeros. |
| Model.NewAccess | utils/model.py:24-37 | An access is built exactly when there are seven fields, the address, timestamp, request line, URL, status and size convert, and `format_size` accepts the size. |
| Model.AccessError | utils/model.py:24-37 | Each failure names the check that raised it. A field-count failure happens exactly when there are not 7 fields. An address, timestamp, status or size failure means that conversion refused its field. A request-line failure is the request's own failure. An overflow means `int` read the size and `format_size` refused it. |
| Model.AccessParts | utils/model.py:24-37 | A built access holds each field's conversion: the address, the timestamp, `parse_qs` of the request's query, `int` of the status, `format_size` of `int` of the size (which it accepted), the referer (`None` exactly for "-") and the parsed user agent. |
| Model.MatchedAccess | utils/model.py:24-37 | From the groups of a grammar match, only the address, timestamp, request line, URL, a size over 4300 digits, or a size that `format_size` refuses can fail. A request-line failure reports the word count. The status is the value of its three digits, below 1000. |
| Model.RequestShape | utils/model.py:31 | A request line is refused for its shape exactly when it does not hold exactly two spaces, and the error reports the number of pieces. |
| Model.RequestWords | utils/model.py:31 | Three space-free words joined by single spaces split back into those words. |
| Model.RequestQueryOfOriginForm | utils/model.py:31-33 | For `METHOD path?query VERSION`, only the middle word is used, and it yields `query`. |
| Model.SerialisedAccess | utils/model.py:39-52 | A built access serialises "ip" to the captured text and "status" to the integer `int()` read. It serialises "referer" to `None` exactly for "-" and to the text otherwise, and "time" to `isoformat().replace("+00:00", "Z")` of the parsed timestamp. |
| Model.AccessDictEntries | utils/model.py:39-52 | Each key of `Access.__dict__()` holds its field's serialisation. "time" holds the text as the code writes it, which equals the intended serialisation unless the offset is positive and under a minute. |
| Model.AccessDict | utils/model.py:39-52 | `Access.__dict__()` has the keys ip, time, query, status, size, referer and user_agent, in that order. |
| Model.UserAgentValue | utils/model.py:47-51 | The "user_agent" entry has the keys browser, os and device, holding what the parsed agent reports for each. |
| Model.CityDict | utils/model.py:91-99 | `asdict` of a city has the keys name, region, country and position, holding the city's name and region and the country's and position's own dictionaries. |
| Model.CountryDict | utils/model.py:81-88 | `asdict` of a country has the keys name, code and continent, holding its name, its code and the continent's dictionary. |
| Model.ContinentDict | utils/model.py:72-78 | `asdict` of a continent has the keys code and name, holding its two fields. |
| Model.PositionDict | utils/model.py:55-69 | `asdict` of a position has the keys latitude and longitude, holding its two floats. |
| Model.EventDict | utils/model.py:107-111 | `Event.__dict__()` has exactly the keys access and city, holding the access's and the city's dictionaries. |
| Model.NewPosition | utils/model.py:62-66 | A location that is not a string is refused. A built position comes from a text with exactly one comma, and its latitude and longitude are what `float` reads from the two parts. |
| Model.PositionShape | utils/model.py:62-65 | A location is refused for its shape exactly when it does not hold exactly one comma. |
| Model.PositionOfParts | utils/model.py:62-66 | For `a,b`, the latitude is `float(a)` and the longitude is `float(b)`. |
| Model.NewContinent | utils/model.py:72-75 | A continent is built only from a dictionary whose keys are all code or name, and it holds the values under those keys. |
| Model.ContinentRoundTrip | utils/model.py:72-78 | `Continent(**asdict(c))` is `c`. |
| Model.ContinentFromDict | utils/model.py:72-78 | A continent built from a dictionary serialises to the same key lookups. |
| Model.ContinentRefused | utils/model.py:72-78 | `Continent(**v)` raises when `v` is not a dictionary, lacks "code", or has a key other than code and name. |
| Timestamp.ParseTimestamp | utils/model.py:30 | Every accepted timestamp is a valid date, time and offset under a day. |
| Timestamp.ParseNginxText | utils/model.py:30 | `strptime` reads nginx's `$time_local` back to the instant it was written from. |
| Timestamp.NginxTextFields | utils/model.py:30 | The format's literals cut nginx's text into the seven directive fields. |
| Timestamp.ParseNginxOffset | utils/model.py:30 | `%z` reads nginx's `+HHMM` back to its offset. |
| Timestamp.MonthOf | utils/model.py:30 | `%b` gives a month from 1 to 12 exactly for the case-insensitive C-locale abbreviations. |
| Timestamp.MonthOfTitle | utils/model.py:30 | `%b` reads nginx's capitalised month name back to its month. |
| Timestamp.TimeTextZuluIffUtc | utils/model.py:42 | The intended serialiser, `TimeText`, ends in "Z" exactly for a UTC offset. Any other offset is left as `isoformat` writes it. |
| Timestamp.AsWrittenTimeText | utils/model.py:42 | The code as written replaces "+00:00" with "Z" for every offset in [0, 1 minute), even when seconds follow. Other offsets are unchanged. |
| Timestamp.AsWrittenAgreesUnlessSubMinute | utils/model.py:42 | The code as written agrees with the intended serialiser except for positive offsets under a minute. |
| Timestamp.SubMinuteOffsetGarbled | utils/model.py:42 | An offset of +30 seconds is serialised as "…Z:30". |
| Timestamp.OffsetFront | utils/model.py:42 | The ISO offset begins with "+00:00" exactly for offsets in [0, 1 minute). |
| Query.QueryText | utils/model.py:32 | The query holds no '#' and no tab or line break. It comes from the target, and a target without '?' has an empty query. |
| Query.OriginFormQuery | utils/model.py:32 | `urlparse("/path?query#frag").query` is the text between the first '?' and the first '#'. |
| Query.AbsoluteFormQuery | utils/model.py:32 | An absolute-form target `scheme://host/path?query#frag` yields the same query. |
| Query.UnclosedBracketRejected | utils/model.py:32 | A network location with '[' but no ']' makes `urlparse` raise. |
| Query.ParseQs | utils/model.py:33 | `parse_qs` has distinct keys, a key exactly for each name that occurs, and under each the values of that name in order. |
| Query.GroupFacts | utils/model.py:33 | Grouping the pairs keeps one key per name, no empty lists, and each name's values in order. |
| Query.AddFacts | utils/model.py:33 | Adding a pair appends its value to its own name's list only, and keeps the keys distinct. |
| Query.ParseQslOfJoined | utils/model.py:33 | `parse_qsl` reads back the decoded fields of a query written as `name=value&…`. |
| Query.BlankValueDropped | utils/model.py:33 | A field with nothing after '=' is dropped. |
| Query.ParseQsl | utils/model.py:33 | There are at most as many fields as '&'-separated pieces. |
| Text.PyInt | utils/model.py:34-35 | `int()` yields only values of at most 4300 digits. |
| Text.DigitRunToInt | utils/model.py:34-35 | `int()` of a run of at most 4300 ASCII digits is its decimal value. |
| Text.IntOfDec | utils/model.py:34 | `int(str(n)) == n`. |
| Text.Split | utils/model.py:31 | `split` of a one-character separator gives one more piece than separators, none holding the separator. |
| Text.JoinOfSplit | utils/model.py:31 | Joining the pieces of a split gives back the text. |
| Text.SplitOfJoin | utils/model.py:31 | Splitting separator-free pieces, once joined, gives back the pieces. |
| Script.Process | script.py:24-38 | The frame, the addresses looked up and the exception are the `Digest` of the lines. The CSV holds the rows exactly when no exception ended the run. |
| Script.Digest | script.py:24-37 | The loop adds at most one row and makes at most one lookup per line. |
| Script.Advance | script.py:27-37 | One pass of the body records the address looked up, appends an event's row or nothing, and keeps the exception. |
| Script.Frame.AppendDict | script.py:37 | `df.loc[len(df)] = d` adds one row at the end and leaves the earlier rows unchanged. |
| Script.Frame.constructor | script.py:25 | The frame starts empty, with the given columns. |
| Script.Align | script.py:37 | The new row holds the dictionary's value under each column, and NaN under a missing one. |
| Script.LoopGrows | script.py:26-37 | Rows and lookups only grow at the end: the state after a prefix of the lines is a prefix of the final state. Once a line raises, nothing changes. |
| Script.LoopIsFront | script.py:26-37 | The loop's state built line by line equals the run read from the front, so rows follow line order. |
| Script.StopsAtFailure | script.py:26-38 | Once a line raises, the lines after it change nothing. |
| Script.NoMatchAborts | script.py:27 | A line the grammar does not match raises. No row is added, and no CSV is written, whatever follows. |
| Script.MissingTrailerAborts | script.py:27 | A line without the closing `"-"` aborts the run. |
| Script.StepOf | script.py:27-37 | One pass of the body emits an event only for a non-bogon address it looked up, skips only a bogon address it looked up, and fails whenever no lookup was made. |
| Script.LookupAfterAccess | script.py:27-29 | The lookup is made exactly for lines that match and build an access, and for that access's address. |
| Script.BogonSkipped | script.py:30-31 | A bogon adds no row and raises nothing. Only its lookup is recorded. |
| Script.CityOf | script.py:32-35 | A built city holds the lookup's "city", "region", "country_name" and "country" values unchanged, a continent built from "continent", and a position built from "loc". |
| Script.CityOfSucceeds | script.py:32-35 | A city is built exactly when the six keys are present and the location and continent are accepted. A missing "loc" raises for "loc" first. |
| Script.EventRow | script.py:36-37 | An event's row is the access dictionary under "access" and the city dictionary under "city". |
| Script.EmittedEvent | script.py:27-37 | An emitted event holds the line's access and a city built from the lookup of its address, which is not a bogon. |

## Left out

- Reading `access.txt`, creating the ipinfo handler, and its cache options and token from the environment (script.py:19-24) are I/O and configuration. The lookup is the parameter `lookup`.
- The lookup `handler.getDetails` (script.py:29) is assumed never to raise (no network, authentication or quota errors) and to give the same answer for the same address throughout a run, although its cache expiry could let a later call see a different answer.
- The CSV text that `to_csv` writes is I/O. The model keeps the rows written, as values.
- `humanfriendly.format_size`, `user_agents.parse`, `float` and percent-decoding are library internals. Each is an abstract parameter, so no property depends on their units, heuristics or rounding.
- The `urlsplit` network-location checks (bracketed hosts and NFKC normalisation) are a parameter, apart from the '['/']' balance and the early acceptance of an ASCII network location without brackets, which are modelled.
- Patterns.Search: `\d` is modelled as the ASCII digits. Python's `\d` also matches other Unicode decimal digits; those are refused later by `ipaddress` but accepted by `int()`.
- Timestamp.ParseTimestamp: the month names are the C locale's, as under the default locale. The microsecond field is always zero, because the format has no `%f`. The numeric fields are read as ASCII digits only. `strptime` also accepts other Unicode decimal digits there (its `\d` is Unicode and `int()` converts them), so a year such as `٢٠٢٣` is accepted by the program and refused by the model.
- Timestamp.ParseNginxText: the round trip is proved for the form nginx writes (two-digit fields, `+HHMM`), not for every text `strptime` accepts.
- Exceptions are collapsed to the error constructors of `Model.Error` and `Script.Failure`. Their Python types and messages are left out.
- Dictionaries are sequences of entries in insertion order. The lookup's details are a `map`, because only membership and lookup are used.
- Integers are unbounded, as in Python. CPython's 4300-digit limit on `int()` is modelled.
- The Python version is a current one: `ipaddress` refuses leading zeros, `int()` has the digit limit, and `urlsplit` strips leading controls and removes tabs and line breaks.

## Findings

| source | as written | input that shows it | evidently intended | confidence | as-written member | corrected member |
|---|---|---|---|---|---|---|
| utils/model.py:42 | `isoformat().replace("+00:00", "Z")` also rewrites the front of an offset with seconds. | A timestamp `10/Oct/2023:13:55:36 +000030` (an offset of +30 seconds, which `%z` accepts) serialises as `2023-10-10T13:55:36Z:30`. | "Z" only for a UTC offset; `+00:00:30` kept as written. | not executed; low, because nginx never writes seconds in the offset | Timestamp.AsWrittenTimeText | Timestamp.TimeText |
