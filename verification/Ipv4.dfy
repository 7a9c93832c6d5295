/** IPv4 hosts of packages/python-sdk/src/weldall/_url.py: the mixed notations browsers read, and the dotted form. */
module Ipv4 {
  import opened Commons
  import opened Numerals
  import opened Text

  /** Hexadecimal after 0x, octal after a leading zero, decimal otherwise; None where the source raises. */
  function ParseIpv4Number(value: string): Option<nat> {
    var hex := |value| >= 2 && value[0] == '0' && (value[1] == 'x' || value[1] == 'X');
    var octal := !hex && |value| >= 2 && value[0] == '0';
    var digits := if hex then value[2..] else if octal then value[1..] else value;
    var base := if hex then 16 else if octal then 8 else 10;
    if digits == "" then (if hex then Some(0) else None)
    else if DigitsOf(digits, base) then Some(ValueOf(digits, base))
    else None
  }

  function ParseAll(parts: seq<string>): (r: Option<seq<nat>>)
    ensures r.Some? ==> |r.value| == |parts| && forall i :: 0 <= i < |parts| ==> ParseIpv4Number(parts[i]) == Some(r.value[i])
    ensures r.None? ==> exists i :: 0 <= i < |parts| && ParseIpv4Number(parts[i]) == None
  {
    if parts == [] then Some([])
    else
      var first, rest := ParseIpv4Number(parts[0]), ParseAll(parts[1..]);
      if first.None? || rest.None? then None else Some([first.value] + rest.value)
  }

  function Power256(n: nat): (p: nat)
    ensures p >= 1
  {
    if n == 0 then 1 else 256 * Power256(n - 1)
  }

  datatype Reading = NotIpv4 | Invalid | Address(value: nat)

  /** The parts of a host, without the empty part after a final dot. */
  function Parts(domain: string): seq<string> {
    var parts := Split(domain, '.');
    if parts[|parts| - 1] == "" then parts[..|parts| - 1] else parts
  }

  predicate LastIsNumber(last: string) {
    ParseIpv4Number(last).Some? || DigitsOf(last, 10)
  }

  predicate InRange(numbers: seq<nat>)
    requires 1 <= |numbers| <= 4
  {
    (forall i :: 0 <= i < |numbers| - 1 ==> numbers[i] <= 255) && numbers[|numbers| - 1] < Power256(5 - |numbers|)
  }

  /** Every part but the last is one byte; the last fills the bytes that are left. */
  ghost function Bytes(numbers: seq<nat>): nat {
    if numbers == [] then 0 else 256 * Bytes(numbers[..|numbers| - 1]) + numbers[|numbers| - 1]
  }

  ghost function AddressOf(numbers: seq<nat>): nat
    requires 1 <= |numbers| <= 4
  {
    Bytes(numbers[..|numbers| - 1]) * Power256(5 - |numbers|) + numbers[|numbers| - 1]
  }

  /** How a host is to be read, as the URL Standard defines its IPv4 parser. */
  ghost function Read(domain: string): Reading {
    var parts := Parts(domain);
    if parts == [] then Invalid
    else if !LastIsNumber(parts[|parts| - 1]) then NotIpv4
    else if |parts| > 4 then Invalid
    else
      var numbers := ParseAll(parts);
      if numbers.None? || !InRange(numbers.value) then Invalid else Address(AddressOf(numbers.value))
  }

  function Octet(value: nat, shift: nat): nat {
    value / Power256(shift) % 256
  }

  function Dotted(value: nat): string {
    Join([Numeral(Octet(value, 3), 10), Numeral(Octet(value, 2), 10), Numeral(Octet(value, 1), 10), Numeral(Octet(value, 0), 10)], '.')
  }

  method CanonicalIpv4(domain: string) returns (r: Option<string>)
    ensures r == match Read(domain)
                 case NotIpv4 => Some(domain)
                 case Invalid => None
                 case Address(value) => Some(Dotted(value))
  {
    var parts := Split(domain, '.');
    if parts[|parts| - 1] == "" { parts := parts[..|parts| - 1]; }
    if parts == [] { return None; }
    if !LastIsNumber(parts[|parts| - 1]) { return Some(domain); }
    if |parts| > 4 { return None; }
    var parsed := ParseAll(parts);
    if parsed.None? { return None; }
    var numbers := parsed.value;
    if !InRange(numbers) { return None; }
    var ipv4 := SumOfParts(numbers);
    return Some(Dotted(ipv4));
  }

  method SumOfParts(numbers: seq<nat>) returns (ipv4: nat)
    requires 1 <= |numbers| <= 4
    ensures ipv4 == AddressOf(numbers)
  {
    var front := numbers[..|numbers| - 1];
    ipv4 := numbers[|numbers| - 1];
    for index := 0 to |front|
      invariant ipv4 == numbers[|numbers| - 1] + Bytes(front[..index]) * Power256(4 - index)
    {
      assert front[..index + 1][..index] == front[..index];
      assert Power256(4 - index) == 256 * Power256(3 - index);
      Distribute(Bytes(front[..index]), front[index], Power256(3 - index));
      ipv4 := ipv4 + front[index] * Power256(3 - index);
    }
    assert front[..|front|] == front;
  }

  lemma Distribute(a: nat, b: nat, p: nat)
    ensures (256 * a + b) * p == a * (256 * p) + b * p
  {}

  // ---------------------------------------------------------------------------
  // Addresses have 32 bits, and the dotted form keeps them
  // ---------------------------------------------------------------------------

  lemma {:induction false} BytesAreBelow(numbers: seq<nat>)
    requires forall i :: 0 <= i < |numbers| ==> numbers[i] <= 255
    ensures Bytes(numbers) < Power256(|numbers|)
  {
    if numbers != [] { BytesAreBelow(numbers[..|numbers| - 1]); }
  }

  lemma Powers()
    ensures Power256(0) == 1 && Power256(1) == 256 && Power256(2) == 0x1_0000 && Power256(3) == 0x100_0000 && Power256(4) == 0x1_0000_0000
  {
    assert Power256(1) == 256 * Power256(0);
    assert Power256(2) == 256 * Power256(1);
    assert Power256(3) == 256 * Power256(2);
    assert Power256(4) == 256 * Power256(3);
  }

  lemma Product(n: nat)
    requires 1 <= n <= 4
    ensures Power256(n - 1) * Power256(5 - n) == Power256(4)
  {
    Powers();
  }

  lemma Room(b: nat, p: nat, q: nat, last: nat)
    requires b < p && last < q
    ensures b * q + last < p * q
  {
    assert (b + 1) * q <= p * q;
  }

  /** No host is read as more than 32 bits. */
  lemma AddressesHave32Bits(domain: string)
    ensures Read(domain).Address? ==> Read(domain).value < 0x1_0000_0000
  {
    if Read(domain).Address? {
      var numbers := ParseAll(Parts(domain)).value;
      var front := numbers[..|numbers| - 1];
      BytesAreBelow(front);
      Powers();
      Product(|numbers|);
      Room(Bytes(front), Power256(|front|), Power256(5 - |numbers|), numbers[|numbers| - 1]);
    }
  }

  lemma NumeralIsRead(n: nat)
    ensures ParseIpv4Number(Numeral(n, 10)) == Some(n) && '.' !in Numeral(n, 10)
  {
    var s := Numeral(n, 10);
    assert DigitsOf(s, 10);
    if |s| >= 2 { assert s[0] != '0'; }
  }

  lemma Octets(value: nat)
    requires value < 0x1_0000_0000
    ensures ((Octet(value, 3) * 256 + Octet(value, 2)) * 256 + Octet(value, 1)) * 256 + Octet(value, 0) == value
    ensures Octet(value, 0) < 256 && Octet(value, 1) < 256 && Octet(value, 2) < 256 && Octet(value, 3) < 256
  {
    Powers();
    assert value / 0x100 / 256 == value / 0x1_0000;
    assert value / 0x1_0000 / 256 == value / 0x100_0000;
    assert value / 0x100_0000 < 256;
  }

  lemma FourBytes(a: nat, b: nat, c: nat, d: nat)
    requires a < 256 && b < 256 && c < 256 && d < 256
    ensures InRange([a, b, c, d]) && AddressOf([a, b, c, d]) == ((a * 256 + b) * 256 + c) * 256 + d
  {
    Powers();
    assert [a, b, c, d][..3] == [a, b, c] && [a, b, c][..2] == [a, b] && [a, b][..1] == [a] && [a][..0] == [];
    assert Bytes([a]) == a;
    assert Bytes([a, b]) == 256 * a + b;
    assert Bytes([a, b, c]) == 256 * (256 * a + b) + c;
  }

  lemma DottedParts(value: nat)
    ensures Parts(Dotted(value)) == [Numeral(Octet(value, 3), 10), Numeral(Octet(value, 2), 10), Numeral(Octet(value, 1), 10), Numeral(Octet(value, 0), 10)]
  {
    var parts := [Numeral(Octet(value, 3), 10), Numeral(Octet(value, 2), 10), Numeral(Octet(value, 1), 10), Numeral(Octet(value, 0), 10)];
    forall p | p in parts ensures '.' !in p {
      NumeralIsRead(Octet(value, 3));
      NumeralIsRead(Octet(value, 2));
      NumeralIsRead(Octet(value, 1));
      NumeralIsRead(Octet(value, 0));
    }
    SplitJoin(parts, '.');
  }

  /** The dotted form of an address reads as that address, and is its own canonical form. */
  lemma DottedIsReadBack(value: nat)
    requires value < 0x1_0000_0000
    ensures Read(Dotted(value)) == Address(value)
  {
    var a, b, c, d := Octet(value, 3), Octet(value, 2), Octet(value, 1), Octet(value, 0);
    Octets(value);
    DottedParts(value);
    NumeralIsRead(a);
    NumeralIsRead(b);
    NumeralIsRead(c);
    NumeralIsRead(d);
    FourBytes(a, b, c, d);
    ParsedFour(Numeral(a, 10), Numeral(b, 10), Numeral(c, 10), Numeral(d, 10), a, b, c, d);
  }

  lemma ParsedFour(p: string, q: string, r: string, s: string, a: nat, b: nat, c: nat, d: nat)
    requires ParseIpv4Number(p) == Some(a) && ParseIpv4Number(q) == Some(b)
    requires ParseIpv4Number(r) == Some(c) && ParseIpv4Number(s) == Some(d)
    ensures ParseAll([p, q, r, s]) == Some([a, b, c, d])
  {
    var parts := [p, q, r, s];
    forall i | 0 <= i < 4 ensures ParseIpv4Number(parts[i]).Some? {}
    assert ParseAll(parts).Some?;
    assert ParseAll(parts).value == [a, b, c, d];
  }

  /** Canonicalising twice is canonicalising once: the canonical host of an address reads as the same address. */
  lemma CanonicalHostKeepsTheAddress(domain: string)
    ensures Read(domain).Address? ==> Read(Dotted(Read(domain).value)) == Read(domain)
  {
    AddressesHave32Bits(domain);
    if Read(domain).Address? { DottedIsReadBack(Read(domain).value); }
  }
}
