/** The text of a framed route: networks as dotted quad and prefix length, separated by blanks. */
module FramedRouteText {
  import opened OnesComplement

  /** A conversion may throw, or shift by a number of places that C++ leaves undefined. */
  datatype Outcome<T> = Ok(value: T) | Throws | Undefined

  datatype Network = Network(ip: u32, len: nat)

  // ---------------------------------------------------------------- std::stoi, std::getline, bitwise or

  predicate IsDigit(c: char) {
    '0' <= c <= '9'
  }

  predicate IsBlank(c: char) {
    c == ' ' || '\t' <= c <= '\r'
  }

  function LeadingDigits(s: string): (n: nat)
    ensures n <= |s|
  {
    if s == [] || !IsDigit(s[0]) then 0 else 1 + LeadingDigits(s[1..])
  }

  function ValueOf(digits: string): nat
    requires forall i :: 0 <= i < |digits| ==> IsDigit(digits[i])
  {
    if digits == [] then 0
    else 10 * ValueOf(digits[..|digits| - 1]) + DigitOf(digits[|digits| - 1])
  }

  function DigitOf(c: char): nat
    requires IsDigit(c)
  {
    c as int - '0' as int
  }

  lemma {:induction false} LeadingAreDigits(s: string)
    ensures forall i :: 0 <= i < LeadingDigits(s) ==> IsDigit(s[i])
  {
    if s != [] && IsDigit(s[0]) {
      LeadingAreDigits(s[1..]);
      forall i | 0 < i < LeadingDigits(s) ensures IsDigit(s[i]) {
        assert s[i] == s[1..][i - 1];
      }
    }
  }

  function SkipBlanks(s: string): string {
    if s != [] && IsBlank(s[0]) then SkipBlanks(s[1..]) else s
  }

  function Stoi(s: string): Outcome<int> {
    var t := SkipBlanks(s);
    var signed := t != [] && (t[0] == '-' || t[0] == '+');
    var u := if signed then t[1..] else t;
    var n := LeadingDigits(u);
    LeadingAreDigits(u);
    var v: int := if signed && t[0] == '-' then -(ValueOf(u[..n]) as int) else ValueOf(u[..n]);
    if n == 0 || v < -0x8000_0000 || v >= 0x8000_0000 then Throws else Ok(v)
  }

  function FindChar(s: string, c: char): (i: nat)
    ensures i <= |s| && (i < |s| ==> s[i] == c) && forall j :: 0 <= j < i ==> s[j] != c
  {
    if s == [] || s[0] == c then 0 else 1 + FindChar(s[1..], c)
  }

  /** What getline returns, call by call, until it fails. */
  function Lines(text: string): seq<string>
    decreases |text|
  {
    if text == [] then []
    else
      var i := FindChar(text, ' ');
      [text[..i]] + if i < |text| then Lines(text[i + 1..]) else []
  }

  function Or(a: nat, b: nat): nat
    decreases a + b
  {
    if a == 0 && b == 0 then 0
    else 2 * Or(a / 2, b / 2) + if a % 2 == 1 || b % 2 == 1 then 1 else 0
  }

  function Pow2(k: nat): (p: nat)
    ensures p > 0
  {
    if k == 0 then 1 else 2 * Pow2(k - 1)
  }

  // ---------------------------------------------------------------- the parser

  /** The rest of framedIPToUeIP's loop. */
  function Scan(s: string, result: u32, shift: int, temp: string): Outcome<u32>
    decreases |s|
  {
    if s == [] then Ok(result)
    else
      var temp' := temp + [s[0]];
      if s[0] == '.' || |s| == 1 then
        match Stoi(temp')
        case Throws => Throws
        case Undefined => Undefined
        case Ok(v) => if shift < 0 then Undefined else Scan(s[1..], Shifted(result, v, shift), shift - 8, "")
      else Scan(s[1..], result, shift, temp')
  }

  function Shifted(result: u32, v: int, shift: nat): u32 {
    Or(result, v * Pow2(shift) % 0x1_0000_0000) % 0x1_0000_0000
  }

  method FramedIPToUeIP(ip: string) returns (r: Outcome<u32>)
    ensures r == Scan(ip, 0, 24, "")
  {
    var result: u32, shiftCounter, ipTemp := 0, 24, "";
    for i := 0 to |ip|
      invariant Scan(ip, 0, 24, "") == Scan(ip[i..], result, shiftCounter, ipTemp)
    {
      ipTemp := ipTemp + [ip[i]];
      if ip[i] == '.' || i == |ip| - 1 {
        var v := Stoi(ipTemp);
        match v {
          case Throws => return Throws;
          case Undefined => return Undefined;
          case Ok(n) =>
            if shiftCounter < 0 { return Undefined; }
            result := Shifted(result, n, shiftCounter);
        }
        ipTemp := "";
        shiftCounter := shiftCounter - 8;
      }
    }
    r := Ok(result);
  }

  /** subnet is the text of the length, backwards. */
  function SubnetLength(text: string): Outcome<int> {
    if |text| > 2 then Ok(32) else Stoi(text)
  }

  method FrameSubnetToUInt(subnet: string) returns (r: Outcome<int>)
    ensures r == SubnetLength(Reverse(subnet))
  {
    ReverseLength(subnet);
    if |subnet| > 2 {
      return Ok(32);
    }
    var temp := "";
    assert subnet[..|subnet|] == subnet;
    for i := |subnet| downto 0
      invariant temp + Reverse(subnet[..i]) == Reverse(subnet)
    {
      assert subnet[..i + 1] == subnet[..i] + [subnet[i]];
      ReverseLast(subnet[..i], subnet[i]);
      temp := temp + [subnet[i]];
    }
    assert Reverse(subnet) == temp;
    r := Stoi(temp);
  }

  function Reverse(s: string): string {
    if s == [] then [] else Reverse(s[1..]) + [s[0]]
  }

  lemma {:induction false} ReverseLength(s: string)
    ensures |Reverse(s)| == |s|
  {
    if s != [] { ReverseLength(s[1..]); }
  }

  lemma {:induction false} ReverseLast(s: string, c: char)
    ensures Reverse(s + [c]) == [c] + Reverse(s)
  {
    if s == [] {
      assert ([] + [c])[1..] == [];
    } else {
      assert (s + [c])[1..] == s[1..] + [c];
      ReverseLast(s[1..], c);
    }
  }

  lemma {:induction false} ReverseTwice(s: string)
    ensures Reverse(Reverse(s)) == s
  {
    if s != [] {
      ReverseTwice(s[1..]);
      ReverseLast(Reverse(s[1..]), s[0]);
    }
  }

  lemma {:induction false} ReverseConcat(a: string, b: string)
    ensures Reverse(a + b) == Reverse(b) + Reverse(a)
  {
    if a == [] {
      assert a + b == b;
    } else {
      assert (a + b)[1..] == a[1..] + b;
      ReverseConcat(a[1..], b);
    }
  }

  /** rfind: the last position of c, or the length of s for npos. */
  function FindLast(s: string, c: char): (i: nat)
    ensures i <= |s| && (i < |s| ==> s[i] == c) && forall j :: i < j < |s| ==> s[j] != c
    ensures i == |s| ==> forall j :: 0 <= j < |s| ==> s[j] != c
  {
    if s == [] then 0
    else if s[|s| - 1] == c then |s| - 1
    else
      var i := FindLast(s[..|s| - 1], c);
      if i == |s| - 1 then |s| else i
  }

  /** The text after the first slash; without one, the whole text. */
  function LengthText(s: string): string {
    var i := FindChar(s, '/');
    if i < |s| then s[i + 1..] else s
  }

  /** Looking for the last slash of the reversed text finds the text after the first one. */
  lemma ReversedLengthText(s: string)
    ensures var r := Reverse(s); r[..FindLast(r, '/')] == Reverse(LengthText(s))
  {
    hide Reverse;
    var i := FindChar(s, '/');
    ReverseLength(s);
    if i < |s| {
      var a, b := s[..i], s[i + 1..];
      assert s == a + ("/" + b);
      ReversedAround(a, b);
      NotReversed(a, '/');
      LastSlash(Reverse(b), Reverse(a));
      var r := Reverse(b) + "/" + Reverse(a);
      assert r[..|Reverse(b)|] == Reverse(b);
    } else {
      NotReversed(s, '/');
      assert Reverse(s)[..|s|] == Reverse(s);
    }
  }

  lemma ReversedAround(a: string, b: string)
    ensures Reverse(a + ("/" + b)) == Reverse(b) + "/" + Reverse(a)
  {
    ReverseConcat(a, "/" + b);
    ReverseConcat("/", b);
    assert "/"[1..] == "" && Reverse("/") == "/";
  }

  lemma LastSlash(b: string, a: string)
    requires forall j :: 0 <= j < |a| ==> a[j] != '/'
    ensures FindLast(b + "/" + a, '/') == |b|
  {
    hide FindLast;
    var r := b + "/" + a;
    var i := FindLast(r, '/');
    assert r[|b|] == '/';
  }

  lemma {:induction false} NotReversed(s: string, c: char)
    requires forall j :: 0 <= j < |s| ==> s[j] != c
    ensures forall j :: 0 <= j < |Reverse(s)| ==> Reverse(s)[j] != c
  {
    if s != [] { NotReversed(s[1..], c); }
  }

  function Extracted(s: string): Outcome<Network> {
    match Scan(s[..FindChar(s, '/')], 0, 24, "")
    case Throws => Throws
    case Undefined => Undefined
    case Ok(ip) =>
      match SubnetLength(LengthText(s))
      case Throws => Throws
      case Undefined => Undefined
      case Ok(len) => if 1 <= len <= 32 then Ok(Network(ip, len)) else Undefined
  }

  /** The prefix length is then shifted by; a length outside 1 to 32 makes that undefined. */
  method ExtractIPCidr(frSubnet: string) returns (r: Outcome<Network>)
    ensures r == Extracted(frSubnet)
  {
    var ip := FramedIPToUeIP(frSubnet[..FindChar(frSubnet, '/')]);
    match ip {
      case Throws => return Throws;
      case Undefined => return Undefined;
      case Ok(_) =>
    }
    var reversed := Reverse(frSubnet);
    ReversedLengthText(frSubnet);
    ReverseTwice(LengthText(frSubnet));
    var cidr := FrameSubnetToUInt(reversed[..FindLast(reversed, '/')]);
    match cidr {
      case Throws => return Throws;
      case Undefined => return Undefined;
      case Ok(len) => return if 1 <= len <= 32 then Ok(Network(ip.value, len)) else Undefined;
    }
  }

  // ---------------------------------------------------------------- printing, and the round trip

  function Decimal(n: nat): string {
    if n < 10 then [(n + '0' as int) as char] else Decimal(n / 10) + [(n % 10 + '0' as int) as char]
  }

  function Quad(ip: u32): string {
    Decimal(ip / 0x100_0000) + "." + Decimal(ip / 0x1_0000 % 0x100) + "." + Decimal(ip / 0x100 % 0x100) + "." + Decimal(ip % 0x100)
  }

  /** A length of 32 may be left out. */
  datatype Route = Route(net: Network, short: bool)

  predicate Printable(r: Route) {
    1 <= r.net.len <= 32 && (r.short ==> r.net.len == 32)
  }

  function PrintOne(r: Route): string {
    Quad(r.net.ip) + if r.short then "" else "/" + Decimal(r.net.len)
  }

  function Print(rs: seq<Route>): string {
    if rs == [] then "" else if |rs| == 1 then PrintOne(rs[0]) else PrintOne(rs[0]) + " " + Print(rs[1..])
  }

  predicate AllDigits(s: string) {
    forall i :: 0 <= i < |s| ==> IsDigit(s[i])
  }

  lemma {:induction false} DecimalIsNumber(n: nat)
    ensures AllDigits(Decimal(n)) && Decimal(n) != [] && ValueOf(Decimal(n)) == n && (n < 100 ==> |Decimal(n)| <= 2)
  {
    if n < 10 {
      assert Decimal(n)[..0] == [];
    } else {
      DecimalIsNumber(n / 10);
      var d := [(n % 10 + '0' as int) as char];
      assert Decimal(n)[..|Decimal(n)| - 1] == Decimal(n / 10);
      assert n < 100 ==> n / 10 < 10 && |Decimal(n / 10)| == 1;
    }
  }

  lemma {:induction false} DigitsLead(s: string, rest: string)
    requires AllDigits(s) && (rest != [] ==> !IsDigit(rest[0]))
    ensures LeadingDigits(s + rest) == |s|
  {
    if s == [] {
      assert s + rest == rest;
    } else {
      assert (s + rest)[1..] == s[1..] + rest;
      DigitsLead(s[1..], rest);
    }
  }

  lemma StoiDecimal(n: nat, rest: string)
    requires n < 0x8000_0000 && (rest != [] ==> !IsDigit(rest[0]))
    ensures Stoi(Decimal(n) + rest) == Ok(n)
  {
    DecimalIsNumber(n);
    DigitsLead(Decimal(n), rest);
    var s := Decimal(n) + rest;
    assert IsDigit(s[0]) && SkipBlanks(s) == s && s[..|Decimal(n)|] == Decimal(n);
  }

  /** Digits are gathered until the dot, or the end. */
  lemma {:induction false} ScanDigits(digits: string, rest: string, result: u32, shift: int, temp: string)
    requires AllDigits(digits) && rest != []
    ensures Scan(digits + rest, result, shift, temp) == Scan(rest, result, shift, temp + digits)
  {
    if digits == [] {
      assert digits + rest == rest && temp + digits == temp;
    } else {
      var s := digits + rest;
      assert s[1..] == digits[1..] + rest && s[0] == digits[0];
      ScanDigits(digits[1..], rest, result, shift, temp + [digits[0]]);
      assert temp + [digits[0]] + digits[1..] == temp + digits;
    }
  }

  lemma ScanOctet(n: nat, rest: string, result: u32, shift: nat)
    requires n < 256
    ensures Scan(Decimal(n) + "." + rest, result, shift, "") == Scan(rest, Shifted(result, n, shift), shift - 8, "")
  {
    hide Stoi, Shifted;
    DecimalIsNumber(n);
    assert Decimal(n) + "." + rest == Decimal(n) + ("." + rest);
    ScanDigits(Decimal(n), "." + rest, result, shift, "");
    assert "" + Decimal(n) == Decimal(n) && ("." + rest)[1..] == rest;
    StoiDecimal(n, ".");
  }

  lemma ScanLastOctet(n: nat, result: u32, shift: nat)
    requires n < 256
    ensures Scan(Decimal(n), result, shift, "") == Ok(Shifted(result, n, shift))
  {
    hide Stoi, Shifted;
    DecimalIsNumber(n);
    var d := Decimal(n);
    var last := d[|d| - 1..];
    assert d == d[..|d| - 1] + last;
    ScanDigits(d[..|d| - 1], last, result, shift, "");
    assert "" + d[..|d| - 1] + [last[0]] == d && last[1..] == "";
    StoiDecimal(n, "");
    assert d + "" == d;
  }

  lemma {:induction false} OrDisjoint(q: nat, b: nat, k: nat)
    requires b < Pow2(k)
    ensures Or(q * Pow2(k), b) == q * Pow2(k) + b
  {
    if k == 0 {
      OrZero(q);
      assert q * Pow2(0) == q;
    } else {
      var p := Pow2(k - 1);
      Doubled(q, p);
      OrDisjoint(q, b / 2, k - 1);
    }
  }

  lemma Doubled(q: nat, p: nat)
    ensures q * (2 * p) == 2 * (q * p)
  {}

  lemma {:induction false} OrZero(a: nat)
    ensures Or(a, 0) == a
  {
    if a > 0 { OrZero(a / 2); }
  }

  lemma Powers()
    ensures Pow2(0) == 1 && Pow2(8) == 0x100 && Pow2(16) == 0x1_0000 && Pow2(24) == 0x100_0000 && Pow2(32) == 0x1_0000_0000
  {
    assert Pow2(4) == 16 && Pow2(8) == 16 * Pow2(4);
    assert Pow2(12) == 16 * Pow2(8);
    assert Pow2(16) == 16 * Pow2(12);
    assert Pow2(20) == 16 * Pow2(16);
    assert Pow2(24) == 16 * Pow2(20);
    assert Pow2(28) == 16 * Pow2(24);
  }

  /** An octet joins those already in place, which end where it begins. */
  lemma ShiftedIn(r: u32, q: nat, n: nat, shift: nat)
    requires n < 256 && r == q * Pow2(shift + 8) && r + n * Pow2(shift) < 0x1_0000_0000
    ensures Shifted(r, n, shift) == r + n * Pow2(shift)
  {
    hide Or, Pow2, Shifted;
    EightMore(shift);
    Below(n, Pow2(shift));
    OrDisjoint(q, n * Pow2(shift), shift + 8);
    ShiftedSmall(r, n, shift);
  }

  lemma Below(n: nat, p: nat)
    requires n < 256 && p > 0
    ensures n * p < 256 * p
  {}

  lemma ShiftedSmall(r: u32, n: nat, shift: nat)
    requires var v := n * Pow2(shift); r + v < 0x1_0000_0000 && Or(r, v) == r + v
    ensures Shifted(r, n, shift) == r + n * Pow2(shift)
  {
    hide Or, Pow2;
    var v := n * Pow2(shift);
    assert v % 0x1_0000_0000 == v;
  }

  lemma EightMore(k: nat)
    ensures Pow2(k + 8) == 256 * Pow2(k)
  {
    assert Pow2(k + 1) == 2 * Pow2(k) && Pow2(k + 2) == 2 * Pow2(k + 1);
    assert Pow2(k + 3) == 2 * Pow2(k + 2) && Pow2(k + 4) == 2 * Pow2(k + 3);
    assert Pow2(k + 5) == 2 * Pow2(k + 4) && Pow2(k + 6) == 2 * Pow2(k + 5);
    assert Pow2(k + 7) == 2 * Pow2(k + 6);
  }

  lemma QuadRoundTrip(ip: u32)
    ensures Scan(Quad(ip), 0, 24, "") == Ok(ip)
  {
    hide Scan, Decimal, Shifted, Pow2;
    var a, b, c, d := ip / 0x100_0000, ip / 0x1_0000 % 0x100, ip / 0x100 % 0x100, ip % 0x100;
    var t3, t2 := Decimal(d), Decimal(c) + "." + Decimal(d);
    var t1 := Decimal(b) + "." + t2;
    assert Quad(ip) == Decimal(a) + "." + t1;
    Octets(ip);
    Powers();
    var r3 := a * 0x100_0000;
    var r2 := r3 + b * 0x1_0000;
    var r1 := r2 + c * 0x100;
    ShiftedIn(0, 0, a, 24);
    ShiftedIn(r3, a, b, 16);
    ShiftedIn(r2, a * 256 + b, c, 8);
    ShiftedIn(r1, (a * 256 + b) * 256 + c, d, 0);
    ScanOctet(a, t1, 0, 24);
    ScanOctet(b, t2, r3, 16);
    ScanOctet(c, t3, r2, 8);
    ScanLastOctet(d, r1, 0);
  }

  lemma Octets(ip: u32)
    ensures var a, b, c, d := ip / 0x100_0000, ip / 0x1_0000 % 0x100, ip / 0x100 % 0x100, ip % 0x100;
      ((a * 256 + b) * 256 + c) * 256 + d == ip && a < 256
  {}

  predicate NoSeparators(s: string) {
    forall i :: 0 <= i < |s| ==> s[i] != '/' && s[i] != ' '
  }

  lemma QuadIsPlain(ip: u32)
    ensures NoSeparators(Quad(ip)) && |Quad(ip)| > 2
  {
    hide Decimal;
    DecimalIsNumber(ip / 0x100_0000);
    DecimalIsNumber(ip / 0x1_0000 % 0x100);
    DecimalIsNumber(ip / 0x100 % 0x100);
    DecimalIsNumber(ip % 0x100);
  }

  lemma {:induction false} FindAfter(a: string, b: string, c: char)
    requires forall i :: 0 <= i < |a| ==> a[i] != c
    ensures FindChar(a + b, c) == |a| + FindChar(b, c)
  {
    if a == [] {
      assert a + b == b;
    } else {
      assert (a + b)[1..] == a[1..] + b;
      FindAfter(a[1..], b, c);
    }
  }

  lemma OneRoundTrip(r: Route)
    requires Printable(r)
    ensures Extracted(PrintOne(r)) == Ok(r.net) && PrintOne(r) != [] && forall i :: 0 <= i < |PrintOne(r)| ==> PrintOne(r)[i] != ' '
  {
    hide Scan, Decimal, Quad, Stoi, FindChar, LengthText, SubnetLength;
    QuadRoundTrip(r.net.ip);
    QuadIsPlain(r.net.ip);
    DecimalIsNumber(r.net.len);
    if r.short { ShortParts(r); } else { LongParts(r); }
  }

  lemma ShortParts(r: Route)
    requires r.short
    ensures var s := PrintOne(r); s == Quad(r.net.ip) && s[..FindChar(s, '/')] == Quad(r.net.ip) && SubnetLength(LengthText(s)) == Ok(32)
  {
    hide Decimal, Quad;
    var q := Quad(r.net.ip);
    QuadIsPlain(r.net.ip);
    FindAfter(q, "", '/');
    assert q + "" == q && q[..|q|] == q;
  }

  lemma LongParts(r: Route)
    requires Printable(r) && !r.short
    ensures var s := PrintOne(r); s[..FindChar(s, '/')] == Quad(r.net.ip) && SubnetLength(LengthText(s)) == Ok(r.net.len)
  {
    hide Decimal, Quad, Stoi;
    var q, d := Quad(r.net.ip), Decimal(r.net.len);
    QuadIsPlain(r.net.ip);
    DecimalIsNumber(r.net.len);
    StoiDecimal(r.net.len, "");
    assert d + "" == d;
    FindAfter(q, "/" + d, '/');
    assert PrintOne(r)[..|q|] == q && PrintOne(r)[|q| + 1..] == d;
  }

  lemma LinesFirst(first: string, rest: string)
    requires first != [] && forall i :: 0 <= i < |first| ==> first[i] != ' '
    ensures Lines(first) == [first] && Lines(first + " " + rest) == [first] + Lines(rest)
  {
    FindAfter(first, "", ' ');
    assert first + "" == first && first[..|first|] == first;
    FindAfter(first, " " + rest, ' ');
    var text := first + " " + rest;
    assert text == first + (" " + rest) && text[..|first|] == first && text[|first| + 1..] == rest;
  }

  /** Every list of networks, printed, is read back as that list. */
  lemma {:induction false} TextRoundTrip(rs: seq<Route>)
    requires forall i :: 0 <= i < |rs| ==> Printable(rs[i])
    ensures |Lines(Print(rs))| == |rs| && forall i :: 0 <= i < |rs| ==> Extracted(Lines(Print(rs))[i]) == Ok(rs[i].net)
  {
    hide PrintOne, Extracted, Lines;
    if rs == [] {
      NoLines();
    } else if |rs| == 1 {
      OneRoundTrip(rs[0]);
      LinesFirst(PrintOne(rs[0]), "");
    } else {
      var rest := rs[1..];
      OneRoundTrip(rs[0]);
      TextRoundTrip(rest);
      LinesFirst(PrintOne(rs[0]), Print(rest));
      forall i | 0 <= i < |rs| ensures Extracted(Lines(Print(rs))[i]) == Ok(rs[i].net) {
        if i > 0 { assert Lines(Print(rs))[i] == Lines(Print(rest))[i - 1] && rs[i] == rest[i - 1]; }
      }
    }
  }

  lemma NoLines()
    ensures Lines("") == []
  {}
}
