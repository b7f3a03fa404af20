/** What the parser of framed routes makes of numbers, shifts and lengths, told from the text itself. */
module FramedRouteReading {
  import opened OnesComplement
  import opened FramedRouteText

  predicate Blanks(s: string) {
    forall i :: 0 <= i < |s| ==> s[i] in {' ', '\t', '\n', 11 as char, 12 as char, '\r'}
  }

  /** stoi skips blanks, takes one sign, reads digits up to the first other character, and throws if
      the number does not fit into 32 bits. */
  lemma StoiReads(blanks: string, sign: string, n: nat, tail: string)
    requires Blanks(blanks) && sign in {"", "+", "-"} && (tail != [] ==> !('0' <= tail[0] <= '9'))
    ensures var v: int := if sign == "-" then 0 - (n as int) else n as int;
      Stoi(blanks + sign + Decimal(n) + tail) == if -2_147_483_648 <= v <= 2_147_483_647 then Ok(v) else Throws
  {
    hide Decimal;
    var d := Decimal(n);
    DecimalIsNumber(n);
    DigitsLead(d, tail);
    assert (d + tail)[..|d|] == d;
    assert blanks + sign + d + tail == blanks + (sign + d + tail);
    var u := sign + d + tail;
    NotBlank(sign, d, tail);
    SkipsBlanks(blanks, u);
    if sign == "" {
      assert u == d + tail && u[0] == d[0] && IsDigit(d[0]);
    } else {
      assert u[0] == sign[0] && u[1..] == d + tail;
    }
  }

  lemma NotBlank(sign: string, d: string, tail: string)
    requires sign in {"", "+", "-"} && d != [] && IsDigit(d[0])
    ensures var u := sign + d + tail; u != [] && !IsBlank(u[0])
  {
    var u := sign + d + tail;
    if sign == "" { assert u[0] == d[0]; } else { assert u[0] == sign[0]; }
  }

  lemma {:induction false} SkipsBlanks(blanks: string, u: string)
    requires Blanks(blanks) && (u != [] ==> !IsBlank(u[0]))
    ensures SkipBlanks(blanks + u) == u
  {
    if blanks == [] {
      assert blanks + u == u;
    } else {
      assert (blanks + u)[1..] == blanks[1..] + u;
      SkipsBlanks(blanks[1..], u);
    }
  }

  /** Without a digit behind blanks and sign it throws. */
  lemma StoiThrows(blanks: string, sign: string, tail: string)
    requires Blanks(blanks) && sign in {"", "+", "-"} && (tail != [] ==> !('0' <= tail[0] <= '9'))
    requires sign == "" && tail != [] ==> !IsBlank(tail[0]) && tail[0] != '+' && tail[0] != '-'
    ensures Stoi(blanks + sign + tail) == Throws
  {
    assert blanks + sign + tail == blanks + (sign + tail);
    var u := sign + tail;
    if sign == "" { assert u == tail; } else { assert u[0] == sign[0] && u[1..] == tail; }
    SkipsBlanks(blanks, u);
  }

  // ---------------------------------------------------------------- shifting octets in

  /** The k-th bit of w, the lowest first. */
  function Bit(w: nat, k: nat): bool {
    if k == 0 then w % 2 == 1 else Bit(w / 2, k - 1)
  }

  lemma {:induction false} OrBits(a: nat, b: nat, k: nat)
    ensures Bit(Or(a, b), k) <==> Bit(a, k) || Bit(b, k)
    decreases k
  {
    var r := Or(a, b);
    OrHalves(a, b);
    if k > 0 { OrBits(a / 2, b / 2, k - 1); }
  }

  lemma OrHalves(a: nat, b: nat)
    ensures Or(a, b) / 2 == Or(a / 2, b / 2) && (Or(a, b) % 2 == 1 <==> a % 2 == 1 || b % 2 == 1)
  {}

  lemma {:induction false} ShiftBits(v: nat, s: nat, k: nat)
    ensures Bit(v * Pow2(s), k) <==> k >= s && Bit(v, k - s)
    decreases s
  {
    if s > 0 {
      var w := v * Pow2(s - 1);
      Double(v, s);
      assert (2 * w) / 2 == w && (2 * w) % 2 == 0;
      if k > 0 { ShiftBits(v, s - 1, k - 1); }
    } else {
      assert v * Pow2(0) == v;
    }
  }

  lemma Double(v: nat, s: nat)
    requires s > 0
    ensures v * Pow2(s) == 2 * (v * Pow2(s - 1))
  {}

  lemma {:induction false} LowBits(w: nat, n: nat, k: nat)
    requires k < n
    ensures Bit(w % Pow2(n), k) <==> Bit(w, k)
    decreases k
  {
    var m := Pow2(n - 1);
    HalfOfRemainder(w, m);
    if k > 0 { LowBits(w / 2, n - 1, k - 1); }
  }

  lemma HalfOfRemainder(w: nat, m: nat)
    requires m > 0
    ensures w % (2 * m) % 2 == w % 2 && w % (2 * m) / 2 == w / 2 % m
  {
    var q, r := w / 2 / m, w / 2 % m;
    assert w / 2 == m * q + r && w == 2 * (w / 2) + w % 2;
    assert w == 2 * (m * q) + (2 * r + w % 2);
    assert 2 * (m * q) == (2 * m) * q by { Regroup(m, q); }
    Remainder(w, 2 * m, q, 2 * r + w % 2);
  }

  lemma Regroup(m: nat, q: nat)
    ensures 2 * (m * q) == (2 * m) * q
  {}

  lemma Remainder(w: nat, m: nat, q: nat, r: nat)
    requires m > 0 && w == m * q + r && r < m
    ensures w % m == r
  {
    var q', r' := w / m, w % m;
    assert w == m * q' + r' && m * (q - q') == r' - r && m * (q' - q) == r - r';
    if q > q' { AtLeast(m, q - q'); } else if q < q' { AtLeast(m, q' - q); }
  }

  lemma AtLeast(m: nat, d: nat)
    requires d >= 1
    ensures m * d >= m
  {}

  /** A number read is or-ed into the word, bit by bit, at the shift; what goes past 32 bits is lost. */
  lemma ShiftedBits(result: u32, v: nat, shift: nat, k: nat)
    requires k < 32
    ensures Bit(Shifted(result, v, shift), k) <==> Bit(result, k) || (k >= shift && Bit(v, k - shift))
  {
    hide Or, Bit, Pow2;
    Words();
    var w := v * Pow2(shift);
    ShiftBits(v, shift, k);
    LowBits(w, 32, k);
    OrBits(result, w % 0x1_0000_0000, k);
    LowBits(Or(result, w % 0x1_0000_0000), 32, k);
  }

  lemma Words()
    ensures Pow2(32) == 0x1_0000_0000
  {
    Powers();
  }

  // ---------------------------------------------------------------- lengths

  /** A printed network with any length: 1 to 32 are read as they are, one of three digits and more
      as 32, and any other shifts by a number of places C++ leaves undefined. */
  lemma PrintedLength(ip: u32, len: nat)
    ensures Extracted(Quad(ip) + "/" + Decimal(len)) ==
      if len >= 100 then Ok(Network(ip, 32)) else if 1 <= len <= 32 then Ok(Network(ip, len)) else Undefined
  {
    hide Scan, Decimal, Quad, Stoi, FindChar;
    var q, d := Quad(ip), Decimal(len);
    var s := q + "/" + d;
    QuadRoundTrip(ip);
    QuadIsPlain(ip);
    DecimalIsNumber(len);
    ThreeDigits(len);
    assert s == q + ("/" + d);
    FindAfter(q, "/" + d, '/');
    assert FindChar("/" + d, '/') == 0 by { SlashFirst(d); }
    assert s[..|q|] == q && s[|q| + 1..] == d;
    if len < 100 {
      StoiDecimal(len, "");
      assert d + "" == d;
    }
  }

  lemma SlashFirst(d: string)
    ensures FindChar("/" + d, '/') == 0
  {}

  lemma ThreeDigits(n: nat)
    ensures n >= 100 <==> |Decimal(n)| > 2
  {
    if n >= 100 {
      assert |Decimal(n)| == |Decimal(n / 10)| + 1 && |Decimal(n / 10)| == |Decimal(n / 100)| + 1;
    } else {
      DecimalIsNumber(n);
    }
  }

  // ---------------------------------------------------------------- lines

  function Join(lines: seq<string>): string {
    if lines == [] then "" else if |lines| == 1 then lines[0] else lines[0] + " " + Join(lines[1..])
  }

  /** The text is cut at every blank, empty pieces included, except that nothing follows a last blank. */
  lemma {:induction false} LinesAre(text: string)
    ensures forall line :: line in Lines(text) ==> ' ' !in line
    ensures Lines(text) == [] <==> text == []
    ensures text == Join(Lines(text)) + LastBlank(text)
    decreases |text|
  {
    hide Join, Lines, FindChar;
    if text == [] {
      NoText();
    } else {
      var i := FindChar(text, ' ');
      var first := text[..i];
      FirstLine(text);
      if i < |text| {
        var rest := text[i + 1..];
        LinesAre(rest);
        JoinFirst(first, Lines(rest));
        Ends(text, first, rest);
        Rejoined(text, first, rest, Join(Lines(rest)), LastBlank(rest));
      } else {
        JoinFirst(first, []);
        assert [first] + [] == [first] && text == first && text[|text| - 1] != ' ';
      }
    }
  }

  function LastBlank(text: string): string {
    if text != [] && text[|text| - 1] == ' ' then " " else ""
  }

  lemma FirstLine(text: string)
    requires text != []
    ensures var i := FindChar(text, ' ');
      && Lines(text) == [text[..i]] + (if i < |text| then Lines(text[i + 1..]) else []) && ' ' !in text[..i]
      && (i < |text| ==> text == text[..i] + " " + text[i + 1..])
  {
    hide FindChar;
    var i := FindChar(text, ' ');
    NotIn(text, i);
    hide Lines;
    if i < |text| { CutAt(text, i); }
  }

  lemma NotIn(text: string, i: nat)
    requires i <= |text| && forall j :: 0 <= j < i ==> text[j] != ' '
    ensures ' ' !in text[..i]
  {}

  lemma CutAt(text: string, i: nat)
    requires i < |text| && text[i] == ' '
    ensures text == text[..i] + " " + text[i + 1..]
  {
    var r := text[..i] + " " + text[i + 1..];
    forall k | 0 <= k < |text| ensures text[k] == r[k] {
      if k > i { assert r[k] == text[i + 1..][k - i - 1]; }
    }
  }

  lemma Ends(text: string, first: string, rest: string)
    requires text == first + " " + rest
    ensures LastBlank(text) == if rest == [] then " " else LastBlank(rest)
  {
    if rest == [] { assert text[|text| - 1] == ' '; } else { assert text[|text| - 1] == rest[|rest| - 1]; }
  }

  lemma Rejoined(text: string, first: string, rest: string, joined: string, last: string)
    requires text == first + " " + rest && rest == joined + last
    ensures text == first + " " + joined + last
  {}

  lemma NoText()
    ensures Lines("") == [] && Join([]) == ""
  {}

  lemma JoinFirst(first: string, lines: seq<string>)
    ensures Join([first] + lines) == if lines == [] then first else first + " " + Join(lines)
  {
    assert ([first] + lines)[1..] == lines;
  }
}
