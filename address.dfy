/**
 * `ipaddress.IPv4Address` as utils/model.py uses it: construction from the
 * captured text (which raises on anything but a dotted quad) and the
 * `compressed` rendering used by the serialiser.
 */
module Address {
  import opened Wrappers
  import opened Text
  import Patterns

  type Octet = n: nat | n < 256

  datatype IPv4 = IPv4(a: Octet, b: Octet, c: Octet, d: Octet)

  /**
   * `IPv4Address._parse_octet`: non-empty, ASCII digits only, at most three of
   * them, no leading zero (other than "0" itself), at most 255.
   */
  function ParseOctet(s: string): Option<Octet>
  {
    if s == [] then None
    else if !All(s, IsDigit) then None
    else if |s| > 3 then None
    else if s != "0" && s[0] == '0' then None
    else if DigitsValue(s) > 255 then None
    else Some(DigitsValue(s))
  }

  /** `IPv4Address(s)` for a text argument; `None` where it raises AddressValueError. */
  function ParseIPv4(s: string): (r: Option<IPv4>)
    ensures r.Some? ==> Split(s, '.') == OctetTexts(r.value)
  {
    if '/' in s then None
    else if s == [] then None
    else
      var parts := Split(s, '.');
      if |parts| != 4 then None
      else
        var a :- ParseOctet(parts[0]);
        var b :- ParseOctet(parts[1]);
        var c :- ParseOctet(parts[2]);
        var d :- ParseOctet(parts[3]);
        DecOfOctet(parts[0]);
        DecOfOctet(parts[1]);
        DecOfOctet(parts[2]);
        DecOfOctet(parts[3]);
        Some(IPv4(a, b, c, d))
  }

  /** The four octets as `str(n)`, in order. */
  function OctetTexts(ip: IPv4): seq<string> {
    [Dec(ip.a), Dec(ip.b), Dec(ip.c), Dec(ip.d)]
  }

  /** `ip.compressed`: dotted decimal without leading zeros. */
  function Compressed(ip: IPv4): (r: string)
    ensures Split(r, '.') == OctetTexts(ip)
    ensures r != [] && '/' !in r
  {
    OctetTextsDotFree(ip);
    SplitOfJoin(OctetTexts(ip), '.');
    JoinOfFourChars(OctetTexts(ip));
    Join(OctetTexts(ip), '.')
  }

  lemma OctetTextsDotFree(ip: IPv4)
    ensures forall i :: 0 <= i < 4 ==> '.' !in OctetTexts(ip)[i]
  {
    var parts := OctetTexts(ip);
    forall i | 0 <= i < 4
      ensures '.' !in parts[i]
    {
      assert All(parts[i], IsDigit);
    }
  }

  lemma OctetOfDec(n: Octet)
    ensures ParseOctet(Dec(n)) == Some(n)
  {
    DecLength(n, 3);
    DecValue(n);
  }

  lemma DecOfOctet(s: string)
    requires ParseOctet(s).Some?
    ensures Dec(ParseOctet(s).value) == s
  {
    CanonicalIsDec(s);
  }

  /** Parsing the compressed form gives back the address. */
  lemma ParseCompressed(ip: IPv4)
    ensures ParseIPv4(Compressed(ip)) == Some(ip)
  {
    OctetOfDec(ip.a);
    OctetOfDec(ip.b);
    OctetOfDec(ip.c);
    OctetOfDec(ip.d);
  }

  lemma JoinOfFourChars(parts: seq<string>)
    requires |parts| == 4 && forall i :: 0 <= i < 4 ==> Canonical(parts[i])
    ensures Join(parts, '.') != [] && '/' !in Join(parts, '.')
  {
    JoinFour(parts);
    assert All(parts[0], IsDigit) && All(parts[1], IsDigit) && All(parts[2], IsDigit) && All(parts[3], IsDigit);
  }

  /**
   * An accepted address text is already in compressed form: since leading
   * zeros are refused, the serialised address equals the captured text.
   */
  lemma CompressedIsInput(s: string)
    requires ParseIPv4(s).Some?
    ensures Compressed(ParseIPv4(s).value) == s
  {
    JoinOfSplit(s, '.');
  }

  lemma RunsOfOctet(p: string, rest: string, k: nat)
    requires 1 <= |p| <= 3 && All(p, IsDigit) && 1 <= k
    requires Patterns.Runs(rest, k - 1)
    ensures Patterns.Runs(p + ['.'] + rest, k)
  {
    var s := p + ['.'] + rest;
    assert s[..|p|] == p;
    assert s[|p| + 1..] == rest;
    assert Patterns.RunOf(s, |p|, k);
  }

  lemma RunsOfLastOctet(p: string)
    requires 1 <= |p| <= 3 && All(p, IsDigit)
    ensures Patterns.Runs(p, 1)
  {
    assert p[..|p|] == p;
    assert Patterns.RunOf(p, |p|, 1);
  }

  /** Every text the address parser accepts is matched by the IP group of the line grammar. */
  lemma AddressFitsGrammar(s: string)
    requires ParseIPv4(s).Some?
    ensures Patterns.IpShape(s)
  {
    var parts := Split(s, '.');
    JoinOfSplit(s, '.');
    RunsOfLastOctet(parts[3]);
    RunsOfOctet(parts[2], parts[3], 2);
    RunsOfOctet(parts[1], parts[2] + ['.'] + parts[3], 3);
    RunsOfOctet(parts[0], parts[1] + ['.'] + (parts[2] + ['.'] + parts[3]), 4);
    JoinFour(parts);
  }

  lemma JoinFour(parts: seq<string>)
    requires |parts| == 4
    ensures Join(parts, '.') == parts[0] + ['.'] + (parts[1] + ['.'] + (parts[2] + ['.'] + parts[3]))
  {
    assert parts[1..][0] == parts[1] && parts[1..][1..] == parts[2..];
    assert parts[2..][0] == parts[2] && parts[2..][1..] == parts[3..];
    var j3 := Join(parts[3..], '.');
    assert j3 == parts[3];
    var j2 := Join(parts[2..], '.');
    assert j2 == parts[2] + ['.'] + j3;
    var j1 := Join(parts[1..], '.');
    assert j1 == parts[1] + ['.'] + j2;
    assert Join(parts, '.') == parts[0] + ['.'] + j1;
  }

  /**
   * The converse fails: the IP group also admits four undotted digits, which
   * the address parser refuses, so the record builder must check again.
   */
  lemma GrammarAdmitsNonAddress()
    ensures Patterns.IpShape("1234") && ParseIPv4("1234") == None
  {
    var s := "1234";
    assert Patterns.RunOf(s[3..], 1, 1) by { assert s[3..][1..] == []; }
    assert Patterns.RunOf(s[2..], 1, 2) by { assert s[2..][1..] == s[3..]; }
    assert Patterns.RunOf(s[1..], 1, 3) by { assert s[1..][1..] == s[2..]; }
    assert Patterns.RunOf(s, 1, 4) by { assert s[1..] == s[1..]; }
    SplitWithout(s, '.');
  }
}
