/**
 * The query of a request target, as `parse_qs(urlparse(target).query)`
 * computes it (utils/model.py:32-33): `urlsplit` cuts the target into scheme,
 * network location, path, query and fragment, and `parse_qs` groups the
 * `name=value` fields of the query by name.
 */
module Query {
  import opened Wrappers
  import opened Text

  // ---------------------------------------------------------------- urlsplit

  /** `_WHATWG_C0_CONTROL_OR_SPACE`: the characters stripped from the front of the URL. */
  predicate IsControlOrSpace(c: char) { c <= ' ' }

  /** `_UNSAFE_URL_BYTES_TO_REMOVE`: removed wherever they occur. */
  predicate IsUnsafe(c: char) { c == '\t' || c == '\r' || c == '\n' }

  predicate IsSafe(c: char) { !IsUnsafe(c) }

  predicate IsAsciiLetter(c: char) { 'a' <= c <= 'z' || 'A' <= c <= 'Z' }

  /** `scheme_chars`: letters, digits, '+', '-' and '.'. */
  predicate IsSchemeChar(c: char) { IsAsciiLetter(c) || IsDigit(c) || c == '+' || c == '-' || c == '.' }


  /** A network location runs up to the first '/', '?' or '#'. */
  predicate IsNetlocChar(c: char) { c != '/' && c != '?' && c != '#' }

  predicate IsAscii(c: char) { c < '\U{80}' }

  /** Every character of `r` occurs in `s`. */
  predicate CharsWithin(r: string, s: string) {
    forall c :: c in r ==> c in s
  }

  function RemoveUnsafe(s: string): (r: string)
    ensures All(r, IsSafe) && CharsWithin(r, s)
    ensures All(s, IsSafe) ==> r == s
  {
    if s == [] then [] else (if IsUnsafe(s[0]) then [] else [s[0]]) + RemoveUnsafe(s[1..])
  }

  /** The URL with leading controls and spaces stripped and tabs and line breaks removed. */
  function Cleaned(target: string): (r: string)
    ensures All(r, IsSafe) && CharsWithin(r, target)
  {
    RemoveUnsafe(target[|TakeWhile(target, IsControlOrSpace)|..])
  }

  /** What follows the scheme: the text after the first ':' when everything before it is a scheme name. */
  function AfterScheme(url: string): (r: string)
    ensures CharsWithin(r, url)
  {
    var name := TakeWhile(url, NotColon);
    if 0 < |name| < |url| && IsAsciiLetter(url[0]) && All(name, IsSchemeChar) then url[|name| + 1..]
    else url
  }

  /**
   * The text after the network location, or `None` where `urlsplit` raises
   * ValueError: a '[' without a ']' or the reverse, or a network location that
   * `netlocAccepted` refuses. That check (the bracketed-host and NFKC checks of
   * `_check_bracketed_netloc` and `_checknetloc`) is consulted only for a
   * network location that holds a '[' or a non-ASCII character: an ASCII one
   * without brackets is always accepted.
   */
  function AfterNetloc(url: string, netlocAccepted: string -> bool): (r: Option<string>)
    ensures r.Some? ==> CharsWithin(r.value, url)
  {
    if |url| >= 2 && url[..2] == "//" then
      var rest := url[2..];
      var netloc := TakeWhile(rest, IsNetlocChar);
      if ('[' in netloc) != (']' in netloc) then None
      else if ('[' in netloc || !All(netloc, IsAscii)) && !netlocAccepted(netloc) then None
      else Some(rest[|netloc|..])
    else Some(url)
  }

  /** `s.split(sep, 1)[0]`: the text before the first separator. */
  function Before(s: string, sep: char): (r: string)
    ensures sep !in r && CharsWithin(r, s)
    ensures sep !in s ==> r == s
  {
    match SplitFirst(s, sep)
    case None => s
    case Some((a, _)) => a
  }

  /** `s.split(sep, 1)[1]` when `s` holds the separator, else the empty string. */
  function After(s: string, sep: char): (r: string)
    ensures CharsWithin(r, s)
    ensures sep !in s ==> r == []
  {
    match SplitFirst(s, sep)
    case None => []
    case Some((_, b)) => b
  }

  /** `urlsplit(target).query`; `None` where `urlsplit` raises. */
  function QueryText(target: string, netlocAccepted: string -> bool): (r: Option<string>)
    ensures r.Some? ==> '#' !in r.value && All(r.value, IsSafe) && CharsWithin(r.value, target)
    ensures '?' !in target ==> r.None? || r.value == []
  {
    var url := Cleaned(target);
    var rest :- AfterNetloc(AfterScheme(url), netlocAccepted);
    var q := After(Before(rest, '#'), '?');
    WithinTrans(rest, AfterScheme(url), url);
    WithinTrans(Before(rest, '#'), rest, url);
    WithinTrans(q, Before(rest, '#'), url);
    WithinTrans(q, url, target);
    WithinTrans(Before(rest, '#'), url, target);
    WithinAll(q, url, IsSafe);
    WithinAll(q, Before(rest, '#'), c => c != '#');
    Some(q)
  }

  lemma WithinTrans(r: string, s: string, t: string)
    requires CharsWithin(r, s) && CharsWithin(s, t)
    ensures CharsWithin(r, t)
  {
  }

  lemma WithinAll(r: string, s: string, p: char -> bool)
    requires CharsWithin(r, s) && All(s, p)
    ensures All(r, p)
  {
    forall i | 0 <= i < |r| ensures p(r[i]) {
      assert r[i] in r;
      assert r[i] in s;
      var j :| 0 <= j < |s| && s[j] == r[i];
    }
  }

  // ---------------------------------------------------------------- parse_qsl / parse_qs

  /** A name or value: '+' stands for a space, then percent-escapes are decoded. */
  function Decode(s: string, unquote: string -> string): string {
    unquote(Replace(s, "+", " "))
  }

  /** One field of the query; empty fields, fields without '=' and blank values are dropped. */
  function FieldOf(piece: string, unquote: string -> string): Option<(string, string)> {
    match SplitFirst(piece, '=')
    case None => None
    case Some((n, v)) => if v == [] then None else Some((Decode(n, unquote), Decode(v, unquote)))
  }

  function FieldsOf(pieces: seq<string>, unquote: string -> string): (r: seq<(string, string)>)
    ensures |r| <= |pieces|
  {
    if pieces == [] then []
    else
      (match FieldOf(pieces[0], unquote) case None => [] case Some(p) => [p])
      + FieldsOf(pieces[1..], unquote)
  }

  /** `parse_qsl(qs)` with the default `keep_blank_values=False` and separator '&'. */
  function ParseQsl(qs: string, unquote: string -> string): (r: seq<(string, string)>)
    ensures |r| <= Count(qs, '&') + 1
  {
    if qs == [] then [] else FieldsOf(Split(qs, '&'), unquote)
  }

  /** A dictionary from names to lists of values, in insertion order. */
  type Multi = seq<(string, seq<string>)>

  /** `d[name].append(value)` if `name` is a key, else `d[name] = [value]`. */
  function Add(d: Multi, name: string, value: string): Multi {
    if d == [] then [(name, [value])]
    else if d[0].0 == name then [(name, d[0].1 + [value])] + d[1..]
    else [d[0]] + Add(d[1..], name, value)
  }

  function Group(pairs: seq<(string, string)>): Multi {
    if pairs == [] then []
    else
      var last := pairs[|pairs| - 1];
      Add(Group(pairs[..|pairs| - 1]), last.0, last.1)
  }

  /**
   * `parse_qs(qs)`: one key per distinct name, a key exactly for each name
   * that occurs, and under each the values of that name in their order.
   */
  function ParseQs(qs: string, unquote: string -> string): (r: Multi)
    ensures DistinctKeys(r)
    ensures forall k :: HasKey(r, k) <==> Named(ParseQsl(qs, unquote), k)
    ensures forall k :: Lookup(r, k) == ValuesOf(ParseQsl(qs, unquote), k)
  {
    GroupFacts(ParseQsl(qs, unquote));
    Group(ParseQsl(qs, unquote))
  }

  // ---------------------------------------------------------------- reference definitions

  predicate DistinctKeys(d: Multi) {
    forall i, j :: 0 <= i < j < |d| ==> d[i].0 != d[j].0
  }

  /** The values recorded under `name`, or the empty list when it is not a key. */
  function Lookup(d: Multi, name: string): seq<string> {
    if d == [] then [] else if d[0].0 == name then d[0].1 else Lookup(d[1..], name)
  }

  predicate HasKey(d: Multi, name: string) {
    exists i :: 0 <= i < |d| && d[i].0 == name
  }

  /** The values of the pairs named `name`, in order. */
  function ValuesOf(pairs: seq<(string, string)>, name: string): seq<string> {
    if pairs == [] then []
    else
      var last := pairs[|pairs| - 1];
      ValuesOf(pairs[..|pairs| - 1], name) + (if last.0 == name then [last.1] else [])
  }

  predicate Named(pairs: seq<(string, string)>, name: string) {
    exists i :: 0 <= i < |pairs| && pairs[i].0 == name
  }

  // ---------------------------------------------------------------- parse_qs lemmas

  lemma AddFacts(d: Multi, name: string, value: string)
    requires DistinctKeys(d) && forall i :: 0 <= i < |d| ==> d[i].1 != []
    ensures DistinctKeys(Add(d, name, value))
    ensures forall i :: 0 <= i < |Add(d, name, value)| ==> Add(d, name, value)[i].1 != []
    ensures forall k :: HasKey(Add(d, name, value), k) <==> HasKey(d, k) || k == name
    ensures forall k :: Lookup(Add(d, name, value), k) == Lookup(d, k) + (if k == name then [value] else [])
  {
    AddKeys(d, name, value);
    AddDistinct(d, name, value);
    forall k ensures Lookup(Add(d, name, value), k) == Lookup(d, k) + (if k == name then [value] else []) {
      AddLookup(d, name, value, k);
    }
  }

  /** Adding a pair adds its name to the keys and no other. */
  lemma {:induction false} AddKeys(d: Multi, name: string, value: string)
    ensures forall k :: HasKey(Add(d, name, value), k) <==> HasKey(d, k) || k == name
  {
    var r := Add(d, name, value);
    if d == [] {
      assert r[0].0 == name;
    } else if d[0].0 == name {
      forall k ensures HasKey(r, k) <==> HasKey(d, k) || k == name {
        assert r[0].0 == d[0].0;
        assert forall i :: 0 < i < |d| ==> r[i] == d[i];
      }
    } else {
      var tail := d[1..];
      var a := Add(tail, name, value);
      AddKeys(tail, name, value);
      assert r == [d[0]] + a;
      forall k ensures HasKey(r, k) <==> HasKey(d, k) || k == name {
        if d[0].0 == k {
          assert r[0].0 == k;
        }
        if HasKey(r, k) && r[0].0 != k {
          var i :| 0 <= i < |r| && r[i].0 == k;
          assert a[i - 1].0 == k;
          if HasKey(tail, k) {
            var j :| 0 <= j < |tail| && tail[j].0 == k;
            assert d[j + 1].0 == k;
          }
        }
        if (HasKey(d, k) || k == name) && d[0].0 != k {
          if HasKey(d, k) {
            var i :| 0 <= i < |d| && d[i].0 == k;
            assert tail[i - 1].0 == k;
          }
          assert HasKey(a, k);
          var j :| 0 <= j < |a| && a[j].0 == k;
          assert r[j + 1].0 == k;
        }
      }
    }
  }

  /** Adding a pair keeps the keys distinct and every value list non-empty. */
  lemma {:induction false} AddDistinct(d: Multi, name: string, value: string)
    requires DistinctKeys(d) && forall i :: 0 <= i < |d| ==> d[i].1 != []
    ensures DistinctKeys(Add(d, name, value))
    ensures forall i :: 0 <= i < |Add(d, name, value)| ==> Add(d, name, value)[i].1 != []
  {
    var r := Add(d, name, value);
    if d != [] && d[0].0 == name {
      assert forall i :: 0 < i < |d| ==> r[i] == d[i];
    } else if d != [] {
      var tail := d[1..];
      var a := Add(tail, name, value);
      assert DistinctKeys(tail) by {
        forall i, j | 0 <= i < j < |tail| ensures tail[i].0 != tail[j].0 {
          assert tail[i] == d[i + 1] && tail[j] == d[j + 1];
        }
      }
      AddDistinct(tail, name, value);
      AddKeys(tail, name, value);
      assert r == [d[0]] + a;
      assert !HasKey(tail, d[0].0) by {
        forall m | 0 <= m < |tail| ensures tail[m].0 != d[0].0 {
          assert tail[m] == d[m + 1];
        }
      }
      forall i, j | 0 <= i < j < |r| ensures r[i].0 != r[j].0 {
        if i == 0 {
          assert r[j] == a[j - 1];
          assert HasKey(a, r[j].0);
        } else {
          assert r[i] == a[i - 1] && r[j] == a[j - 1];
        }
      }
    }
  }

  /** Adding a pair appends its value to its own name's list and leaves the others alone. */
  lemma {:induction false} AddLookup(d: Multi, name: string, value: string, k: string)
    ensures Lookup(Add(d, name, value), k) == Lookup(d, k) + (if k == name then [value] else [])
  {
    if d != [] && d[0].0 != name {
      AddLookup(d[1..], name, value, k);
    }
  }

  /**
   * `parse_qs` keeps one key per distinct name, each with the values of the
   * pairs of that name in their order, and a key exactly for the names that occur.
   */
  lemma {:induction false} GroupFacts(pairs: seq<(string, string)>)
    ensures DistinctKeys(Group(pairs))
    ensures forall i :: 0 <= i < |Group(pairs)| ==> Group(pairs)[i].1 != []
    ensures forall k :: HasKey(Group(pairs), k) <==> Named(pairs, k)
    ensures forall k :: Lookup(Group(pairs), k) == ValuesOf(pairs, k)
  {
    if pairs != [] {
      var init := pairs[..|pairs| - 1];
      var last := pairs[|pairs| - 1];
      GroupFacts(init);
      AddFacts(Group(init), last.0, last.1);
      forall k ensures Named(pairs, k) <==> Named(init, k) || k == last.0 {
        if Named(init, k) {
          var i :| 0 <= i < |init| && init[i].0 == k;
          assert pairs[i].0 == k;
        }
        if Named(pairs, k) {
          var i :| 0 <= i < |pairs| && pairs[i].0 == k;
          if i < |init| {
            assert init[i].0 == k;
          }
        }
      }
    } else {
      forall k ensures !Named(pairs, k) && !HasKey(Group(pairs), k) {
      }
    }
  }

  // ---------------------------------------------------------------- parse_qsl lemmas

  lemma {:induction false} SplitFirstOf(x: string, sep: char, y: string)
    requires sep !in x
    ensures SplitFirst(x + [sep] + y, sep) == Some((x, y))
  {
    if x == [] {
      assert x + [sep] + y == [sep] + y;
    } else {
      SplitFirstOf(x[1..], sep, y);
      assert (x + [sep] + y)[1..] == x[1..] + [sep] + y;
      assert [x[0]] + x[1..] == x;
    }
  }

  /** The text `name=value` of one field. */
  function FieldText(f: (string, string)): string {
    f.0 + "=" + f.1
  }

  function FieldTexts(fields: seq<(string, string)>): (r: seq<string>)
    ensures |r| == |fields|
    ensures forall i :: 0 <= i < |fields| ==> r[i] == FieldText(fields[i])
  {
    if fields == [] then [] else [FieldText(fields[0])] + FieldTexts(fields[1..])
  }

  function Decoded(fields: seq<(string, string)>, unquote: string -> string): (r: seq<(string, string)>)
    ensures |r| == |fields|
    ensures forall i :: 0 <= i < |fields| ==> r[i] == (Decode(fields[i].0, unquote), Decode(fields[i].1, unquote))
  {
    if fields == [] then [] else [(Decode(fields[0].0, unquote), Decode(fields[0].1, unquote))] + Decoded(fields[1..], unquote)
  }

  /** Fields fit to be joined by '&': no name holds '&' or '=', no value holds '&' or is blank. */
  predicate Encodable(fields: seq<(string, string)>) {
    forall i :: 0 <= i < |fields| ==>
      '&' !in fields[i].0 && '=' !in fields[i].0 && '&' !in fields[i].1 && fields[i].1 != []
  }

  lemma {:induction false} FieldsOfTexts(fields: seq<(string, string)>, unquote: string -> string)
    requires Encodable(fields)
    ensures FieldsOf(FieldTexts(fields), unquote) == Decoded(fields, unquote)
  {
    if fields != [] {
      SplitFirstOf(fields[0].0, '=', fields[0].1);
      assert FieldTexts(fields)[1..] == FieldTexts(fields[1..]);
      FieldsOfTexts(fields[1..], unquote);
    }
  }

  /** `parse_qsl` reads back the fields of a query written as `name=value&...`, decoded. */
  lemma ParseQslOfJoined(fields: seq<(string, string)>, unquote: string -> string)
    requires fields != [] && Encodable(fields)
    ensures ParseQsl(Join(FieldTexts(fields), '&'), unquote) == Decoded(fields, unquote)
  {
    var texts := FieldTexts(fields);
    forall i | 0 <= i < |texts| ensures '&' !in texts[i] {
      assert texts[i] == fields[i].0 + "=" + fields[i].1;
    }
    SplitOfJoin(texts, '&');
    assert '=' in texts[0];
    assert Join(texts, '&') != [] by {
      if |texts| > 1 {
        assert Join(texts, '&') == texts[0] + ['&'] + Join(texts[1..], '&');
      }
    }
    FieldsOfTexts(fields, unquote);
  }

  /** A field with nothing after its '=' is dropped. */
  lemma BlankValueDropped(name: string, unquote: string -> string)
    requires '=' !in name
    ensures FieldOf(name + "=", unquote) == None
  {
    SplitFirstOf(name, '=', []);
    assert name + "=" == name + ['='] + [];
  }

  // ---------------------------------------------------------------- urlsplit lemmas

  lemma AfterSchemeOfPath(url: string)
    requires url != [] && url[0] == '/'
    ensures AfterScheme(url) == url
  {
  }

  lemma TakeWhileWhole(s: string, p: char -> bool)
    requires All(s, p)
    ensures TakeWhile(s, p) == s
  {
    TakeWhileOf(s, [], p);
    assert s + [] == s;
  }

  /**
   * An origin-form target, `path?query#fragment` as nginx logs it, yields
   * the text between the first '?' and the first '#'.
   */
  lemma OriginFormQuery(path: string, query: string, tail: string, netlocAccepted: string -> bool)
    requires path != [] && path[0] == '/' && (|path| >= 2 ==> path[1] != '/')
    requires '?' !in path && '#' !in path && '#' !in query
    requires tail == [] || tail[0] == '#'
    requires All(path + "?" + query + tail, IsSafe)
    ensures QueryText(path + "?" + query + tail, netlocAccepted) == Some(query)
  {
    var target := path + "?" + query + tail;
    CleanedOf(target);
    AfterSchemeOfPath(target);
    NoNetloc(target, if |path| == 1 then '?' else path[1], netlocAccepted);
    PathQuery(path, query, tail);
  }

  /** A path that does not start with two slashes has no network location to skip. */
  lemma NoNetloc(url: string, second: char, netlocAccepted: string -> bool)
    requires url != [] && url[0] == '/' && (|url| >= 2 ==> url[1] == second) && second != '/'
    ensures AfterNetloc(url, netlocAccepted) == Some(url)
  {
  }

  /** Cleaning leaves alone a URL that starts with a visible character and holds no tab or line break. */
  lemma CleanedOf(url: string)
    requires url != [] && url[0] > ' ' && All(url, IsSafe)
    ensures Cleaned(url) == url
  {
    TakeWhileOf([], url, IsControlOrSpace);
    assert url[0..] == url;
  }

  /**
   * An absolute-form target, `scheme://host/path?query#fragment`, yields the
   * same query as its origin form.
   */
  lemma AbsoluteFormQuery(scheme: string, host: string, path: string, query: string, tail: string,
                          netlocAccepted: string -> bool)
    requires scheme != [] && IsAsciiLetter(scheme[0]) && All(scheme, IsSchemeChar)
    requires All(host, IsNetlocChar) && '[' !in host && ']' !in host
    requires !All(host, IsAscii) ==> netlocAccepted(host)
    requires path != [] && path[0] == '/'
    requires '?' !in path && '#' !in path && '#' !in query
    requires tail == [] || tail[0] == '#'
    requires All(scheme + "://" + host + path + "?" + query + tail, IsSafe)
    ensures QueryText(scheme + "://" + host + path + "?" + query + tail, netlocAccepted) == Some(query)
  {
    var rest := path + "?" + query + tail;
    var target := scheme + (":" + ("//" + (host + rest)));
    assert target == scheme + "://" + host + path + "?" + query + tail;
    CleanedOf(target);
    SchemeSkipped(scheme, "//" + (host + rest));
    NetlocSkipped(host, rest, netlocAccepted);
    PathQuery(path, query, tail);
  }

  lemma SchemeSkipped(scheme: string, rest: string)
    requires scheme != [] && IsAsciiLetter(scheme[0]) && All(scheme, IsSchemeChar)
    ensures AfterScheme(scheme + (":" + rest)) == rest
  {
    var url := scheme + (":" + rest);
    assert All(scheme, NotColon);
    TakeWhileOf(scheme, ":" + rest, NotColon);
    assert url[|scheme| + 1..] == rest;
  }

  lemma NetlocSkipped(host: string, rest: string, netlocAccepted: string -> bool)
    requires All(host, IsNetlocChar) && '[' !in host && ']' !in host
    requires !All(host, IsAscii) ==> netlocAccepted(host)
    requires rest != [] && rest[0] == '/'
    ensures AfterNetloc("//" + (host + rest), netlocAccepted) == Some(rest)
  {
    var url := "//" + (host + rest);
    assert url[..2] == "//" && url[2..] == host + rest;
    TakeWhileOf(host, rest, IsNetlocChar);
    assert (host + rest)[|host|..] == rest;
  }

  /** The query part of `path?query#fragment`. */
  lemma PathQuery(path: string, query: string, tail: string)
    requires '?' !in path && '#' !in path && '#' !in query
    requires tail == [] || tail[0] == '#'
    ensures After(Before(path + "?" + query + tail, '#'), '?') == query
  {
    var target := path + "?" + query + tail;
    var before := path + "?" + query;
    assert Before(target, '#') == before by {
      assert '#' !in before;
      if tail == [] {
        assert target == before;
      } else {
        assert target == before + ['#'] + tail[1..];
        SplitFirstOf(before, '#', tail[1..]);
      }
    }
    SplitFirstOf(path, '?', query);
  }

  /** A network location with a '[' but no ']' makes `urlsplit` raise. */
  lemma UnclosedBracketRejected(host: string, rest: string, netlocAccepted: string -> bool)
    requires All(host, IsNetlocChar) && '[' in host && ']' !in host
    requires rest == [] || !IsNetlocChar(rest[0])
    requires All("//" + host + rest, IsSafe)
    ensures QueryText("//" + host + rest, netlocAccepted).None?
  {
    var target := "//" + (host + rest);
    assert target == "//" + host + rest;
    CleanedOf(target);
    assert AfterScheme(target) == target by {
      assert !IsAsciiLetter(target[0]);
    }
    assert target[..2] == "//" && target[2..] == host + rest;
    TakeWhileOf(host, rest, IsNetlocChar);
  }
}
