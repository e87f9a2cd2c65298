/** Addresses as text: address_as_str and parse_address_str, with the library's decimal printing, strtol, and
    the dotted-decimal form of inet_ntoa and inet_pton (section 6.3 of RFC 3493, with leading zeros refused, as
    C libraries do) written out. */
module AddressText {
  import opened Common

  const LONG_MAX: int := 0x7fff_ffff_ffff_ffff

  const INADDR_ANY := Ip(0, 0, 0, 0)

  datatype ParseError = UnknownPrefix | MissingColon | BadIpLength | BadIp | EmptyPort | BadPort

  // ----- Decimal numbers -----

  predicate IsDigit(ch: char) { '0' <= ch <= '9' }

  predicate AllDigits(s: string) { forall i :: 0 <= i < |s| ==> IsDigit(s[i]) }

  function DigitChar(d: nat): (ch: char)
    requires d < 10
    ensures IsDigit(ch) && DigitValue(ch) == d && ch == "0123456789"[d]
  {
    '0' + d as char
  }

  function DigitValue(ch: char): (d: nat)
    requires IsDigit(ch)
    ensures d < 10
  {
    (ch - '0') as nat
  }

  /** A number as %d prints it. */
  function Decimal(n: nat): string {
    if n < 10 then [DigitChar(n)] else Decimal(n / 10) + [DigitChar(n % 10)]
  }

  /** The value of a string of digits. */
  function Value(s: string): nat
    requires AllDigits(s)
  {
    if s == "" then 0 else 10 * Value(s[..|s| - 1]) + DigitValue(s[|s| - 1])
  }

  lemma {:induction false} DecimalRoundTrip(n: nat)
    ensures Decimal(n) != "" && AllDigits(Decimal(n)) && Value(Decimal(n)) == n
    ensures n < 10 ==> |Decimal(n)| == 1
  {
    if n >= 10 {
      DecimalRoundTrip(n / 10);
      var s := Decimal(n);
      assert s[..|s| - 1] == Decimal(n / 10) && s[|s| - 1] == DigitChar(n % 10);
    } else {
      assert Decimal(n)[..0] == "";
    }
  }

  lemma {:induction false} NoLeadingZero(n: nat)
    ensures Decimal(n) != "" && (Decimal(n)[0] == '0' <==> n == 0)
  {
    if n >= 10 {
      NoLeadingZero(n / 10);
      assert Decimal(n)[0] == Decimal(n / 10)[0];
    } else {
      assert DigitValue(Decimal(n)[0]) == n;
    }
  }

  lemma DecimalLength(n: nat)
    ensures n < 256 ==> |Decimal(n)| <= 3
    ensures n < 0x1_0000 ==> |Decimal(n)| <= 5
  {
    DecimalRoundTrip(n);
    if n < 0x1_0000 {
      assert n / 10 < 10 || n / 10 / 10 < 10 || n / 10 / 10 / 10 < 10 || n / 10 / 10 / 10 / 10 < 10;
      DecimalRoundTrip(n / 10 / 10 / 10 / 10);
      DecimalRoundTrip(n / 10 / 10 / 10);
      DecimalRoundTrip(n / 10 / 10);
      DecimalRoundTrip(n / 10);
    }
  }

  // ----- Splitting -----

  /** strchr: the first position of ch, or the length. */
  function Find(s: string, ch: char): (i: nat)
    ensures i <= |s|
  {
    if s == "" || s[0] == ch then 0 else 1 + Find(s[1..], ch)
  }

  lemma {:induction false} FindIs(s: string, ch: char)
    ensures var i := Find(s, ch); ch !in s[..i] && (i < |s| ==> s[i] == ch) && (ch in s <==> i < |s|)
  {
    if s != "" && s[0] != ch {
      FindIs(s[1..], ch);
      var i := Find(s[1..], ch);
      assert s == [s[0]] + s[1..] && s[..1 + i] == [s[0]] + s[1..][..i];
    }
  }

  lemma {:induction false} FindAfter(a: string, ch: char, rest: string)
    requires ch !in a
    ensures Find(a + [ch] + rest, ch) == |a| && Find(a, ch) == |a|
  {
    if a != "" {
      assert (a + [ch] + rest)[1..] == a[1..] + [ch] + rest;
      FindAfter(a[1..], ch, rest);
    }
  }

  lemma DigitsHaveNo(s: string, ch: char)
    requires AllDigits(s) && !IsDigit(ch)
    ensures ch !in s
  {
  }

  // ----- Dotted decimal -----

  /** One part of a dotted address: one to three digits without a leading zero, at most 255. */
  function Part(s: string): Option<byte> {
    if 1 <= |s| <= 3 && (s[0] != '0' || |s| == 1) && AllDigits(s) && Value(s) < 256 then Some(Value(s)) else None
  }

  /** The parts between dots. */
  function Split(s: string, ch: char): seq<string>
    decreases |s|
  {
    var i := Find(s, ch);
    if i == |s| then [s] else [s[..i]] + Split(s[i + 1..], ch)
  }

  /** inet_pton for AF_INET. */
  function PtoN(s: string): Option<Ip> {
    var parts := Split(s, '.');
    if |parts| == 4 && Part(parts[0]).Some? && Part(parts[1]).Some? && Part(parts[2]).Some? && Part(parts[3]).Some?
    then Some(Ip(Part(parts[0]).value, Part(parts[1]).value, Part(parts[2]).value, Part(parts[3]).value))
    else None
  }

  /** inet_ntoa */
  function NtoA(ip: Ip): string {
    Decimal(ip.a) + "." + Decimal(ip.b) + "." + Decimal(ip.c) + "." + Decimal(ip.d)
  }

  lemma SplitStep(a: string, ch: char, rest: string)
    requires ch !in a
    ensures Split(a + [ch] + rest, ch) == [a] + Split(rest, ch) && Split(a, ch) == [a]
  {
    var s := a + [ch] + rest;
    FindAfter(a, ch, rest);
    assert s[..|a|] == a && s[|a| + 1..] == rest;
  }

  lemma PartOfDecimal(b: byte)
    ensures Part(Decimal(b)) == Some(b) && '.' !in Decimal(b) && ':' !in Decimal(b) && 1 <= |Decimal(b)| <= 3
    ensures AllDigits(Decimal(b))
  {
    DecimalRoundTrip(b);
    DecimalLength(b);
    NoLeadingZero(b);
    DigitsHaveNo(Decimal(b), '.');
    DigitsHaveNo(Decimal(b), ':');
  }

  lemma IpRoundTrip(ip: Ip)
    ensures PtoN(NtoA(ip)) == Some(ip) && ':' !in NtoA(ip) && NtoA(ip) != "*" && 7 <= |NtoA(ip)| <= 15
  {
    PartOfDecimal(ip.a);
    PartOfDecimal(ip.b);
    PartOfDecimal(ip.c);
    PartOfDecimal(ip.d);
    var a, b, c, d := Decimal(ip.a), Decimal(ip.b), Decimal(ip.c), Decimal(ip.d);
    hide Decimal, Part, Split;
    FourParts(a, b, c, d);
    var s := a + "." + b + "." + c + "." + d;
    assert NtoA(ip) == s && |s| == |a| + |b| + |c| + |d| + 3;
    hide NtoA;
  }

  lemma FourParts(a: string, b: string, c: string, d: string)
    requires '.' !in a && '.' !in b && '.' !in c && '.' !in d
    ensures Split(a + "." + b + "." + c + "." + d, '.') == [a, b, c, d]
  {
    hide Split;
    var cd := c + ['.'] + d;
    var bcd := b + ['.'] + cd;
    assert a + "." + b + "." + c + "." + d == a + ['.'] + bcd;
    SplitStep(a, '.', bcd);
    SplitStep(b, '.', cd);
    SplitStep(c, '.', d);
    SplitStep(d, '.', "");
  }

  // ----- strtol -----

  predicate IsSpace(ch: char) { ch == ' ' || '\t' <= ch <= '\r' }

  /** The number of leading characters that strtol skips as white space. */
  function Spaces(s: string): (i: nat)
    ensures i <= |s|
  {
    if s != "" && IsSpace(s[0]) then 1 + Spaces(s[1..]) else 0
  }

  /** The length of the digits that s starts with. */
  function DigitRun(s: string): (i: nat)
    ensures i <= |s| && AllDigits(s[..i])
  {
    if s != "" && IsDigit(s[0]) then
      var i := DigitRun(s[1..]);
      assert s[..1 + i] == [s[0]] + s[1..][..i];
      1 + i
    else 0
  }

  /** strtol in base ten: the value, clamped to the range of a long, and where parsing stopped.  Without a
      digit nothing is consumed. */
  function StrToL(s: string): (r: (int, nat))
    ensures r.1 <= |s|
  {
    var start := Spaces(s);
    var rest := s[start..];
    var signed := if rest != "" && (rest[0] == '-' || rest[0] == '+') then 1 else 0;
    var n := DigitRun(rest[signed..]);
    if n == 0 then (0, 0)
    else
      var magnitude: int := Value(rest[signed..][..n]);
      var value := if signed == 1 && rest[0] == '-' then -magnitude else magnitude;
      (if value > LONG_MAX then LONG_MAX else if value < -LONG_MAX - 1 then -LONG_MAX - 1 else value, start + signed + n)
  }

  lemma {:induction false} DigitRunOfDigits(s: string)
    requires AllDigits(s)
    ensures DigitRun(s) == |s|
  {
    if s != "" { DigitRunOfDigits(s[1..]); }
  }

  lemma StrToLOfDecimal(n: nat)
    requires n <= LONG_MAX
    ensures StrToL(Decimal(n)) == (n, |Decimal(n)|)
  {
    DecimalRoundTrip(n);
    var s := Decimal(n);
    assert IsDigit(s[0]) && s[0..] == s;
    DigitRunOfDigits(s);
    assert s[..|s|] == s;
  }

  lemma StrToLOfSigned(sign: char, n: int)
    requires 0 <= n <= LONG_MAX && (sign == '-' || sign == '+')
    ensures StrToL([sign] + Decimal(n)) == (if sign == '-' then -n else n, 1 + |Decimal(n)|)
  {
    DecimalRoundTrip(n);
    DigitRunOfDigits(Decimal(n));
    hide Decimal, Value, DigitRun, AllDigits;
    StrToLSplit(sign, Decimal(n));
  }

  lemma StrToLSplit(sign: char, s: string)
    requires (sign == '-' || sign == '+') && s != "" && DigitRun(s) == |s| && AllDigits(s) && Value(s) <= LONG_MAX
    ensures StrToL([sign] + s) == (if sign == '-' then -(Value(s) as int) else Value(s), 1 + |s|)
  {
    hide Value, DigitRun, AllDigits;
    var t := [sign] + s;
    assert !IsSpace(sign) && Spaces(t) == 0;
    assert t[0..] == t && t[1..] == s && t[1..][..|s|] == s;
    hide Spaces;
  }

  /** White space in front changes nothing, but that it is consumed with the number. */
  lemma StrToLOfSpace(ch: char, s: string)
    requires ch in " \t\n\r" || ch == 11 as char || ch == 12 as char
    ensures StrToL([ch] + s) == if StrToL(s).1 == 0 then (0, 0) else (StrToL(s).0, 1 + StrToL(s).1)
  {
    hide Value, DigitRun;
    var k := Spaces(s);
    assert ([ch] + s)[1..] == s;
    assert Spaces([ch] + s) == 1 + k;
    assert ([ch] + s)[1 + k..] == s[k..];
    hide Spaces;
  }

  // ----- Whole addresses -----

  const TCP_PREFIX := "tcp://"
  const UDP_PREFIX := "udp://"
  const PREFIX_LEN: nat := 6

  /** The socket type that the six-character prefix names. */
  function ProtocolOf(s: string): Option<uint16> {
    if TCP_PREFIX <= s then Some(SOCK_STREAM)
    else if UDP_PREFIX <= s then Some(SOCK_DGRAM)
    else None
  }

  /** address_as_str, before it is cut to the buffer. */
  function AsStr(a: Address): string {
    Prefix(a) + NtoA(a.ip) + ":" + Decimal(a.port)
  }

  function Prefix(a: Address): string {
    if a.protocolType == SOCK_DGRAM then UDP_PREFIX else TCP_PREFIX
  }

  /** What address_as_str leaves in its 32-byte buffer: at most 31 characters and the terminator. */
  function AddressAsStr(a: Address): string {
    var s := AsStr(a);
    if |s| > 31 then s[..31] else s
  }

  /** The buffer is always large enough. */
  lemma FitsBuffer(a: Address)
    ensures |AsStr(a)| + 1 <= 32 && AddressAsStr(a) == AsStr(a)
  {
    IpRoundTrip(a.ip);
    DecimalLength(a.port);
  }

  /** The fields of a conn that parsing fills in. */
  class Conn {
    var remoteIp: Ip
    var remotePort: uint16
    var protocolType: uint16

    constructor ()
      ensures remoteIp == INADDR_ANY && remotePort == 0 && protocolType == 0
    {
      remoteIp, remotePort, protocolType := INADDR_ANY, 0, 0;
    }

    function Fields(): Address
      reads this
    {
      Address(remoteIp, remotePort, protocolType)
    }

    /** parse_address_str: fields are set as they are parsed, so an error may leave some of them changed. */
    method ParseAddressStr(address: string) returns (err: Option<ParseError>)
      modifies this
      ensures err.None? <==> Parse(address).Some?
      ensures err.None? ==> Fields() == Parse(address).value
      ensures err == Some(UnknownPrefix) <==> !("tcp://" <= address || "udp://" <= address)
      ensures err != Some(UnknownPrefix) ==>
                && protocolType == (if "tcp://" <= address then SOCK_STREAM else SOCK_DGRAM)
                && var rest := address[6..];
                && (err == Some(MissingColon) <==> ':' !in rest)
                && (err == Some(BadIpLength) <==> ':' in rest && !(1 <= Find(rest, ':') <= 15))
      ensures err.Some? && err.value in {BadIp, EmptyPort, BadPort} ==>
                var rest := address[6..];
                var colon := Find(rest, ':');
                && 1 <= colon <= 15 && colon < |rest|
                && (err == Some(BadIp) <==> rest[..colon] != "*" && PtoN(rest[..colon]).None?)
                && (err == Some(EmptyPort) ==> rest[colon + 1..] == "")
                && (err == Some(BadPort) ==> rest[colon + 1..] != "" && StrToL(rest[colon + 1..]).1 != |rest[colon + 1..]|)
      ensures err == Some(UnknownPrefix) ==> Fields() == old(Fields())
      ensures err.Some? && err != Some(BadPort) ==> remotePort == old(remotePort)
      ensures err.Some? && err.value in {MissingColon, BadIpLength, BadIp} ==> remoteIp == old(remoteIp)
    {
      hide PtoN, StrToL, Find;
      var protocol := ProtocolOf(address);
      ProtocolIs(address);
      hide ProtocolOf;
      if protocol.None? { return Some(UnknownPrefix); }
      protocolType := protocol.value;
      PrefixIsThere(address);
      var rest := address[PREFIX_LEN..];
      var colon := Find(rest, ':');
      FindIs(rest, ':');
      if colon == |rest| { return Some(MissingColon); }
      if colon > 15 || colon < 1 { return Some(BadIpLength); }
      var ipStr := rest[..colon];
      if ipStr == "*" {
        remoteIp := INADDR_ANY;
      } else {
        var ip := PtoN(ipStr);
        if ip.None? { return Some(BadIp); }
        remoteIp := ip.value;
      }
      var portStr := rest[colon + 1..];
      if portStr == "" { return Some(EmptyPort); }
      var (value, end) := StrToL(portStr);
      remotePort := value % 0x1_0000;
      if end != |portStr| { return Some(BadPort); }
      err := None;
    }
  }

  /** Which strings are addresses, and of what: a protocol prefix, an ip of at most 15 characters in dotted
      decimal or "*", a colon, and a number that fills the rest, taken modulo 65,536. */
  function Parse(s: string): Option<Address> {
    if ProtocolOf(s).None? then None
    else
      var rest := s[PREFIX_LEN..];
      var colon := Find(rest, ':');
      if colon == |rest| || !(1 <= colon <= 15) then None
      else
        var ip := if rest[..colon] == "*" then Some(INADDR_ANY) else PtoN(rest[..colon]);
        var port := rest[colon + 1..];
        if ip.None? || port == "" || StrToL(port).1 != |port| then None
        else Some(Address(ip.value, StrToL(port).0 % 0x1_0000, ProtocolOf(s).value))
  }

  lemma ProtocolIs(s: string)
    ensures ProtocolOf(s).Some? <==> "tcp://" <= s || "udp://" <= s
    ensures ProtocolOf(s).Some? ==> ProtocolOf(s).value == if "tcp://" <= s then SOCK_STREAM else SOCK_DGRAM
  {
  }

  lemma PrefixIsThere(s: string)
    requires ProtocolOf(s).Some?
    ensures PREFIX_LEN <= |s|
  {
  }

  lemma ProtocolOfPrefix(a: Address, rest: string)
    ensures ProtocolOf(Prefix(a) + rest) == Some(if a.protocolType == SOCK_DGRAM then SOCK_DGRAM else SOCK_STREAM)
    ensures |Prefix(a)| == PREFIX_LEN
  {
    var s := UDP_PREFIX + rest;
    assert s[0] == 'u' && TCP_PREFIX[0] == 't';
  }

  /** Parsing what address_as_str prints succeeds for every address; it restores ip and port always, and the
      protocol exactly when that is one of the two that a conn can have. */
  lemma AddressRoundTrip(a: Address)
    ensures Parse(AddressAsStr(a)).Some?
    ensures var r := Parse(AddressAsStr(a)).value;
            && r.ip == a.ip && r.port == a.port
            && (r == a <==> a.protocolType == SOCK_STREAM || a.protocolType == SOCK_DGRAM)
  {
    hide AsStr, AddressAsStr, Prefix, NtoA, Decimal, Find, PtoN, StrToL, ProtocolOf, Parse, Value, AllDigits;
    FitsBuffer(a);
    IpRoundTrip(a.ip);
    StrToLOfDecimal(a.port);
    DecimalRoundTrip(a.port);
    AsStrIs(a);
    ProtocolOfPrefix(a, NtoA(a.ip) + ":" + Decimal(a.port));
    Pieces(Prefix(a), NtoA(a.ip), Decimal(a.port));
    ParsePieces(AsStr(a), NtoA(a.ip), Decimal(a.port), a.ip, a.port,
                if a.protocolType == SOCK_DGRAM then SOCK_DGRAM else SOCK_STREAM);
  }

  /** How an address is printed. */
  lemma Printed(a: Address)
    ensures AsStr(a) == (if a.IsUdp() then "udp://" else "tcp://") + NtoA(a.ip) + ":" + Decimal(a.port)
    ensures AsStr(Address(Ip(1, 2, 3, 4), 80, SOCK_DGRAM)) == "udp://1.2.3.4:80"
  {
    hide Decimal, NtoA;
    OneToFour();
  }

  lemma OneToFour()
    ensures NtoA(Ip(1, 2, 3, 4)) == "1.2.3.4" && Decimal(80) == "80"
  {
    assert Decimal(1) == "1" && Decimal(2) == "2" && Decimal(3) == "3" && Decimal(4) == "4" && Decimal(80) == "80";
    hide Decimal;
  }

  /** "*" stands for any address, with either prefix. */
  lemma AnyAddress(port: uint16)
    ensures Parse("tcp://*:" + Decimal(port)) == Some(Address(Ip(0, 0, 0, 0), port, SOCK_STREAM))
    ensures Parse("udp://*:" + Decimal(port)) == Some(Address(Ip(0, 0, 0, 0), port, SOCK_DGRAM))
  {
    hide Decimal, Parse, StrToL, Value, AllDigits;
    var s := Decimal(port);
    StrToLOfDecimal(port);
    DecimalRoundTrip(port);
    ParseStar("tcp://", s);
    ParseStar("udp://", s);
    assert "tcp://" + "*:" + s == "tcp://*:" + s && "udp://" + "*:" + s == "udp://*:" + s;
  }

  lemma ParseStar(prefix: string, port: string)
    requires (prefix == "tcp://" || prefix == "udp://") && port != "" && StrToL(port).1 == |port|
    ensures Parse(prefix + "*:" + port)
         == Some(Address(Ip(0, 0, 0, 0), StrToL(port).0 % 0x1_0000, if prefix == "tcp://" then SOCK_STREAM else SOCK_DGRAM))
  {
    hide StrToL, Find, PtoN, ProtocolOf;
    var s, rest := prefix + "*:" + port, "*:" + port;
    assert s == prefix + rest && s[6..] == rest && prefix <= s;
    assert prefix == "udp://" ==> s[0] == 'u' && "tcp://"[0] == 't';
    ProtocolIs(s);
    FindAfter("*", ':', port);
    assert rest == "*" + [':'] + port && rest[..1] == "*" && rest[2..] == port;
  }

  lemma AsStrIs(a: Address)
    ensures AsStr(a) == Prefix(a) + NtoA(a.ip) + ":" + Decimal(a.port)
    ensures AsStr(a) == Prefix(a) + (NtoA(a.ip) + ":" + Decimal(a.port))
  {
  }

  lemma ParsePieces(s: string, ip: string, port: string, x: Ip, v: uint16, protocol: uint16)
    requires ProtocolOf(s) == Some(protocol) && PREFIX_LEN <= |s|
    requires var rest := s[PREFIX_LEN..];
             Find(rest, ':') == |ip| < |rest| && rest[..|ip|] == ip && rest[|ip| + 1..] == port
    requires PtoN(ip) == Some(x) && ip != "*" && 1 <= |ip| <= 15 && port != "" && StrToL(port) == (v, |port|)
    ensures Parse(s) == Some(Address(x, v, protocol))
  {
    hide Find, PtoN, StrToL, ProtocolOf;
  }

  /** Cutting an address string where the parser does. */
  lemma Pieces(prefix: string, ip: string, port: string)
    requires |prefix| == 6 && ':' !in ip
    ensures var s := prefix + ip + ":" + port;
            && s[..6] == prefix && Find(s[6..], ':') == |ip| < |s[6..]|
            && s[6..][..|ip|] == ip && s[6..][|ip| + 1..] == port
  {
    var s, rest := prefix + ip + ":" + port, ip + [':'] + port;
    assert s == prefix + rest;
    assert s[6..] == rest;
    FindAfter(ip, ':', port);
  }
}
