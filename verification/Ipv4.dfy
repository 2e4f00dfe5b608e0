/** IPv4 addresses as numbers and in dotted decimal (the IPv4address rule of section 3.2.2 of RFC 3986). */
module Ipv4 {
  import opened Wrappers
  import opened Text
  import Clock

  const LIMIT: nat := 0x1_0000_0000

  type Address = n: nat | n < LIMIT

  // ---------------------------------------------------------------------
  // Decimal numbers without leading zeros
  // ---------------------------------------------------------------------

  function Decimal(n: nat): string {
    if n < 10 then [Clock.Digit(n)] else Decimal(n / 10) + [Clock.Digit(n % 10)]
  }

  predicate IsDigit(c: char) {
    '0' <= c <= '9'
  }

  function DigitValue(c: char): nat
    requires IsDigit(c)
  {
    c as int - 48
  }

  predicate AllDigits(s: string) {
    forall i :: 0 <= i < |s| ==> IsDigit(s[i])
  }

  function Value(s: string): nat
    requires AllDigits(s)
  {
    if s == "" then 0 else 10 * Value(s[..|s| - 1]) + DigitValue(s[|s| - 1])
  }

  predicate Canonical(s: string) {
    s != "" && AllDigits(s) && (s == "0" || s[0] != '0')
  }

  lemma {:induction false} DecimalIsCanonical(n: nat)
    ensures Canonical(Decimal(n)) && Value(Decimal(n)) == n
    ensures n > 0 ==> Decimal(n)[0] != '0'
    ensures n < 1000 ==> |Decimal(n)| <= 3
  {
    if n < 10 {
      assert Decimal(n)[..0] == "";
    } else {
      DecimalIsCanonical(n / 10);
      assert Decimal(n)[..|Decimal(n)| - 1] == Decimal(n / 10);
      if n < 1000 {
        assert n / 10 < 100;
        ShortDecimal(n / 10);
      }
    }
  }

  lemma ShortDecimal(n: nat)
    requires n < 100
    ensures |Decimal(n)| <= 2
  {
  }

  lemma {:induction false} ValueOfCanonical(s: string)
    requires Canonical(s)
    ensures Decimal(Value(s)) == s
    ensures s != "0" ==> Value(s) > 0
  {
    var init, c := s[..|s| - 1], s[|s| - 1];
    assert s == init + [c];
    if init == "" {
      assert Value(s) == DigitValue(c);
    } else {
      assert init[0] == s[0];
      ValueOfCanonical(init);
      assert Value(s) / 10 == Value(init) && Value(s) % 10 == DigitValue(c);
    }
  }

  // ---------------------------------------------------------------------
  // Addresses
  // ---------------------------------------------------------------------

  datatype Quad = Quad(a: nat, b: nat, c: nat, d: nat)

  function Octets(n: Address): Quad {
    Quad(n / 256 / 256 / 256, n / 256 / 256 % 256, n / 256 % 256, n % 256)
  }

  function Number(q: Quad): nat {
    ((q.a * 256 + q.b) * 256 + q.c) * 256 + q.d
  }

  predicate ValidQuad(q: Quad) {
    q.a < 256 && q.b < 256 && q.c < 256 && q.d < 256
  }

  lemma OctetsNumber(n: Address)
    ensures ValidQuad(Octets(n)) && Number(Octets(n)) == n
  {
  }

  lemma NumberOctets(q: Quad)
    requires ValidQuad(q)
    ensures Number(q) < LIMIT && Octets(Number(q)) == q
  {
    var n := Number(q);
    assert n / 256 == (q.a * 256 + q.b) * 256 + q.c;
    assert n / 256 / 256 == q.a * 256 + q.b;
  }

  function QuadText(q: Quad): string {
    Join([Decimal(q.a), Decimal(q.b), Decimal(q.c), Decimal(q.d)], '.')
  }

  /** str(IPv4Address(n)) */
  function AddressText(n: Address): string {
    QuadText(Octets(n))
  }

  function ParseOctet(s: string): Option<nat> {
    if s == "" || !AllDigits(s) || |s| > 3 then None
    else if s != "0" && s[0] == '0' then None
    else if Value(s) > 255 then None
    else Some(Value(s))
  }

  /** int(IPv4Address(s)), or None where the constructor raises an error. */
  function ParseAddress(s: string): (r: Option<Address>)
  {
    var parts := Split(s, '.');
    if |parts| != 4 then None
    else
      var a, b, c, d := ParseOctet(parts[0]), ParseOctet(parts[1]), ParseOctet(parts[2]), ParseOctet(parts[3]);
      if a.None? || b.None? || c.None? || d.None? then None
      else
        NumberOctets(Quad(a.value, b.value, c.value, d.value));
        Some(Number(Quad(a.value, b.value, c.value, d.value)))
  }

  lemma ParsePrintedOctet(n: nat)
    requires n < 256
    ensures ParseOctet(Decimal(n)) == Some(n) && '.' !in Decimal(n)
  {
    DecimalIsCanonical(n);
    assert !IsDigit('.');
  }

  lemma PrintParsedOctet(s: string)
    requires ParseOctet(s).Some?
    ensures ParseOctet(s).value < 256 && Decimal(ParseOctet(s).value) == s
  {
    ValueOfCanonical(s);
  }

  lemma ParseJoined(parts: seq<string>, q: Quad)
    requires |parts| == 4 && ValidQuad(q) && forall i :: 0 <= i < 4 ==> '.' !in parts[i]
    requires ParseOctet(parts[0]) == Some(q.a) && ParseOctet(parts[1]) == Some(q.b)
    requires ParseOctet(parts[2]) == Some(q.c) && ParseOctet(parts[3]) == Some(q.d)
    ensures Number(q) < LIMIT && ParseAddress(Join(parts, '.')) == Some(Number(q))
  {
    SplitJoin(parts, '.');
    NumberOctets(q);
  }

  lemma ParseQuadText(q: Quad)
    requires ValidQuad(q)
    ensures Number(q) < LIMIT && ParseAddress(QuadText(q)) == Some(Number(q))
  {
    ParsePrintedOctet(q.a);
    ParsePrintedOctet(q.b);
    ParsePrintedOctet(q.c);
    ParsePrintedOctet(q.d);
    ParseJoined([Decimal(q.a), Decimal(q.b), Decimal(q.c), Decimal(q.d)], q);
  }

  /** The text of an address is read back as that address. */
  lemma ParsePrinted(n: Address)
    ensures ParseAddress(AddressText(n)) == Some(n)
  {
    OctetsNumber(n);
    ParseQuadText(Octets(n));
  }

  /** A text that is read as an address is the one text of that address. */
  lemma PrintParsed(s: string)
    requires ParseAddress(s).Some?
    ensures AddressText(ParseAddress(s).value) == s
  {
    var parts := Split(s, '.');
    PrintParsedOctet(parts[0]);
    PrintParsedOctet(parts[1]);
    PrintParsedOctet(parts[2]);
    PrintParsedOctet(parts[3]);
    var q := Quad(ParseOctet(parts[0]).value, ParseOctet(parts[1]).value, ParseOctet(parts[2]).value, ParseOctet(parts[3]).value);
    NumberOctets(q);
    JoinSplit(s, '.');
    assert parts == [parts[0], parts[1], parts[2], parts[3]];
  }

  lemma AddressTextInjective(n: Address, m: Address)
    ensures AddressText(n) == AddressText(m) <==> n == m
  {
    ParsePrinted(n);
    ParsePrinted(m);
  }

  lemma AddressTextNotEmpty(n: Address)
    ensures AddressText(n) != ""
  {
    ParsePrinted(n);
    SplitNone("", '.');
  }

  /** Comparing numbers is comparing octet by octet from the left. */
  lemma NumberOrder(q: Quad, r: Quad)
    requires ValidQuad(q) && ValidQuad(r)
    ensures Number(q) < Number(r) <==>
            || q.a < r.a
            || (q.a == r.a && (q.b < r.b || (q.b == r.b && (q.c < r.c || (q.c == r.c && q.d < r.d)))))
  {
  }

  /** An address in full. */
  lemma AddressExample()
    ensures AddressText(3232235786) == "192.168.1.10" && ParseAddress("192.168.1.10") == Some(3232235786)
  {
    var q := Quad(192, 168, 1, 10);
    assert Octets(3232235786) == q;
    DecimalDigits(1, 9, 2);
    DecimalDigits(1, 6, 8);
    TwoDecimalDigits(1, 0);
    assert QuadText(q) == "192.168.1.10";
    ParsePrinted(3232235786);
  }

  lemma TwoDecimalDigits(a: nat, b: nat)
    requires 0 < a < 10 && b < 10
    ensures Decimal(10 * a + b) == [(48 + a) as char, (48 + b) as char]
  {
  }

  lemma DecimalDigits(a: nat, b: nat, c: nat)
    requires 0 < a < 10 && b < 10 && c < 10
    ensures Decimal(100 * a + 10 * b + c) == [(48 + a) as char, (48 + b) as char, (48 + c) as char]
  {
    TwoDecimalDigits(a, b);
    assert (100 * a + 10 * b + c) / 10 == 10 * a + b;
  }
}
