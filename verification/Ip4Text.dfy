/** IPv4 addresses as text: the accumulator parser, the printer, and the exact language between them. */
module Ip4Text {
  import opened Bytes

  predicate IsDigit(c: char) {
    '0' <= c <= '9'
  }

  function Digit(c: char): (d: nat)
    requires IsDigit(c)
    ensures d < 10
  {
    c as int - '0' as int
  }

  predicate AllDigits(s: string) {
    forall i :: 0 <= i < |s| ==> IsDigit(s[i])
  }

  /** The number a digit run stands for; the empty run stands for 0. */
  function Value(s: string): nat
    requires AllDigits(s)
  {
    if s == "" then 0 else 10 * Value(s[..|s| - 1]) + Digit(s[|s| - 1])
  }

  /** The text cut at every dot. */
  function Fields(s: string): (fields: seq<string>)
    ensures |fields| >= 1
  {
    if s == "" then [""]
    else
      var before, c := Fields(s[..|s| - 1]), s[|s| - 1];
      if c == '.' then before + [""] else Extended(before, [c])
  }

  /** The fields with more text in the last one. */
  function Extended(fields: seq<string>, t: string): (longer: seq<string>)
    requires |fields| >= 1
    ensures |longer| == |fields|
  {
    fields[..|fields| - 1] + [fields[|fields| - 1] + t]
  }

  function Join(fields: seq<string>): string
    requires |fields| >= 1
  {
    if |fields| == 1 then fields[0]
    else Join(fields[..|fields| - 1]) + "." + fields[|fields| - 1]
  }

  predicate ByteField(f: string) {
    AllDigits(f) && Value(f) <= 255
  }

  /** At most four fields, each a digit run of value at most 255. */
  predicate Plausible(s: string) {
    |Fields(s)| <= 4 && forall k :: 0 <= k < |Fields(s)| ==> ByteField(Fields(s)[k])
  }

  /** The address a text stands for: its four fields, or 0.0.0.0. */
  function Meaning(s: string): (b: seq<byte>)
    ensures |b| == 4
  {
    var f := Fields(s);
    if Plausible(s) && |f| == 4 then
      [Value(f[0]) as byte, Value(f[1]) as byte, Value(f[2]) as byte, Value(f[3]) as byte]
    else
      [0, 0, 0, 0]
  }

  // ---------- digits and runs ----------

  /** The ten digits and what they stand for. */
  lemma DigitTable()
    ensures forall c :: IsDigit(c) <==> c in "0123456789"
    ensures forall d :: 0 <= d < 10 ==> IsDigit("0123456789"[d]) && Digit("0123456789"[d]) == d
  {
    assert |"0123456789"| == 10;
    forall c
      ensures IsDigit(c) <==> c in "0123456789"
    {
      if IsDigit(c) { assert "0123456789"[c as int - '0' as int] == c; }
    }
  }

  /** Positional value in base ten: the empty run is 0, and one more digit is ten times as much and that digit. */
  lemma ValueStep(s: string, d: nat)
    requires AllDigits(s) && d < 10
    ensures Value("") == 0
    ensures AllDigits(s + ["0123456789"[d]]) && Value(s + ["0123456789"[d]]) == 10 * Value(s) + d
  {
    DigitTable();
    DigitStep(s, "0123456789"[d]);
  }

  /** Written out for the runs that a byte needs. */
  lemma ValueOfRun(a: nat, b: nat, c: nat)
    requires a < 10 && b < 10 && c < 10
    ensures var x, y, z := "0123456789"[a], "0123456789"[b], "0123456789"[c];
      && AllDigits([x]) && AllDigits([x, y]) && AllDigits([x, y, z])
      && Value("") == 0 && Value([x]) == a && Value([x, y]) == 10 * a + b && Value([x, y, z]) == 100 * a + 10 * b + c
  {
    DigitTable();
    var x, y, z := "0123456789"[a], "0123456789"[b], "0123456789"[c];
    DigitStep([], x);
    DigitStep([x], y);
    DigitStep([x, y], z);
    assert [] + [x] == [x] && [x] + [y] == [x, y] && [x, y] + [z] == [x, y, z];
  }

  /** Leading zeros do not count. */
  lemma {:induction false} LeadingZero(s: string)
    requires AllDigits(s)
    ensures AllDigits("0" + s) && Value("0" + s) == Value(s)
    decreases |s|
  {
    if s == "" {
      DigitStep("", '0');
      assert "" + ['0'] == "0" && "0" + s == "0";
    } else {
      var init, c := s[..|s| - 1], s[|s| - 1];
      LeadingZero(init);
      DigitStep(init, c);
      DigitStep("0" + init, c);
      assert init + [c] == s && ("0" + init) + [c] == "0" + s;
    }
  }

  // ---------- cutting and joining ----------

  lemma {:induction false} JoinOfFields(s: string)
    ensures Join(Fields(s)) == s
  {
    if s != "" {
      var init, c := s[..|s| - 1], s[|s| - 1];
      JoinOfFields(init);
      assert s == init + [c];
      FieldsStep(init, c);
      var before := Fields(init);
      if c == '.' {
        assert Fields(s) == before + [""];
        JoinEmpty(before);
      } else {
        assert Fields(s) == Extended(before, [c]);
        ExtendLast(before, [c]);
      }
    }
  }

  lemma JoinEmpty(fields: seq<string>)
    requires |fields| >= 1
    ensures Join(fields + [""]) == Join(fields) + "."
  {
    assert (fields + [""])[..|fields|] == fields;
    assert Join(fields) + "." + "" == Join(fields) + ".";
  }

  lemma ExtendLast(fields: seq<string>, t: string)
    requires |fields| >= 1
    ensures Join(Extended(fields, t)) == Join(fields) + t
  {
    var longer, n := Extended(fields, t), |fields| - 1;
    assert longer[n] == fields[n] + t;
    if n > 0 {
      var head := Join(fields[..n]) + ".";
      assert longer[..n] == fields[..n];
      assert head + (fields[n] + t) == (head + fields[n]) + t;
    }
  }

  lemma FieldsStep(p: string, c: char)
    ensures Fields(p + [c]) == if c == '.' then Fields(p) + [""] else Extended(Fields(p), [c])
  {
    assert (p + [c])[..|p|] == p;
  }

  lemma ExtendNone(fields: seq<string>)
    requires |fields| >= 1
    ensures Extended(fields, "") == fields
  {
    assert fields[|fields| - 1] + "" == fields[|fields| - 1];
  }

  lemma ExtendTwice(fields: seq<string>, a: string, b: string)
    requires |fields| >= 1
    ensures Extended(Extended(fields, a), b) == Extended(fields, a + b)
  {
    var last := fields[|fields| - 1];
    assert (last + a) + b == last + (a + b);
  }

  /** Text without a dot lands in the last field. */
  lemma {:induction false} FieldsExtend(s: string, t: string)
    requires '.' !in t
    ensures Fields(s + t) == Extended(Fields(s), t)
  {
    if t == "" {
      assert s + t == s;
      ExtendNone(Fields(s));
    } else {
      var init, c := t[..|t| - 1], t[|t| - 1];
      assert c in t && t == init + [c];
      FieldsExtend(s, init);
      ExtendByOne(s, init, c);
    }
  }

  lemma ExtendByOne(s: string, init: string, c: char)
    requires c != '.' && Fields(s + init) == Extended(Fields(s), init)
    ensures Fields(s + (init + [c])) == Extended(Fields(s), init + [c])
  {
    assert s + (init + [c]) == (s + init) + [c];
    FieldsStep(s + init, c);
    ExtendTwice(Fields(s), init, [c]);
  }

  lemma FieldsDot(s: string)
    ensures Fields(s + ".") == Fields(s) + [""]
  {
    assert (s + ".")[..|s|] == s;
  }

  function Dotted(a: string, b: string, c: string, d: string): string {
    a + "." + b + "." + c + "." + d
  }

  lemma FieldsNext(s: string, t: string)
    requires '.' !in t
    ensures Fields(s + "." + t) == Fields(s) + [t]
  {
    FieldsDot(s);
    FieldsExtend(s + ".", t);
    assert "" + t == t;
  }

  lemma FieldsOfDotted(a: string, b: string, c: string, d: string)
    requires '.' !in a && '.' !in b && '.' !in c && '.' !in d
    ensures Fields(Dotted(a, b, c, d)) == [a, b, c, d]
  {
    var s2 := a + "." + b;
    var s3 := s2 + "." + c;
    FieldsOfOne(a);
    FieldsNext(a, b);
    FieldsNext(s2, c);
    FieldsNext(s3, d);
    assert [a] + [b] + [c] + [d] == [a, b, c, d];
  }

  lemma FieldsOfOne(a: string)
    requires '.' !in a
    ensures Fields(a) == [a]
  {
    FieldsExtend("", a);
    assert "" + a == a;
  }

  predicate Spells(s: string, a: string, b: string, c: string, d: string) {
    s == Dotted(a, b, c, d) && ByteField(a) && ByteField(b) && ByteField(c) && ByteField(d)
  }

  /**
   The accepted language: exactly the texts of three dots between four digit runs of value at
   most 255.  Runs may be empty and may have leading zeros, which is wider than the grammar in
   section 3.2.2 of RFC 3986.  Every other text stands for 0.0.0.0.
   */
  lemma Language(s: string)
    ensures (exists a, b, c, d :: Spells(s, a, b, c, d)) <==> Plausible(s) && |Fields(s)| == 4
    ensures forall a, b, c, d :: Spells(s, a, b, c, d) ==>
      Meaning(s) == [Value(a) as byte, Value(b) as byte, Value(c) as byte, Value(d) as byte]
    ensures (forall a, b, c, d :: !Spells(s, a, b, c, d)) ==> Meaning(s) == [0, 0, 0, 0]
  {
    forall a, b, c, d | Spells(s, a, b, c, d)
      ensures Fields(s) == [a, b, c, d]
    {
      FieldsOfDotted(a, b, c, d);
    }
    var f := Fields(s);
    if Plausible(s) && |f| == 4 {
      JoinOfFields(s);
      JoinOfFour(f);
      assert Spells(s, f[0], f[1], f[2], f[3]);
    }
  }

  lemma JoinOfFour(f: seq<string>)
    requires |f| == 4
    ensures Join(f) == Dotted(f[0], f[1], f[2], f[3])
  {
    assert f[..3][..2] == f[..2] && f[..2][..1] == f[..1];
    assert Join(f[..3]) == Join(f[..2]) + "." + f[2];
    assert Join(f[..2]) == f[0] + "." + f[1];
  }

  // ---------- the parser ----------

  /** A text that has gone wrong cannot recover. */
  lemma {:induction false} PrefixPlausible(s: string, n: nat)
    requires n <= |s| && Plausible(s)
    ensures Plausible(s[..n])
    decreases |s|
  {
    if n == |s| {
      assert s[..n] == s;
    } else {
      var init := s[..|s| - 1];
      InitPlausible(s);
      PrefixPlausible(init, n);
      assert init[..n] == s[..n];
    }
  }

  lemma InitPlausible(s: string)
    requires s != "" && Plausible(s)
    ensures Plausible(s[..|s| - 1])
  {
    var before, now := Fields(s[..|s| - 1]), Fields(s);
    var c := s[|s| - 1];
    forall k | 0 <= k < |before|
      ensures ByteField(before[k])
    {
      assert ByteField(now[k]);
      if k == |before| - 1 && c != '.' {
        InitOfByteField(before[k], c);
      }
    }
  }

  lemma InitOfByteField(f: string, c: char)
    requires ByteField(f + [c])
    ensures ByteField(f) && IsDigit(c) && Value(f + [c]) == 10 * Value(f) + Digit(c)
  {
    var longer := f + [c];
    assert longer[..|longer| - 1] == f && longer[|f|] == c;
    forall i | 0 <= i < |f|
      ensures IsDigit(f[i])
    {
      assert longer[i] == f[i];
    }
  }

  lemma DigitStep(f: string, c: char)
    requires AllDigits(f) && IsDigit(c)
    ensures AllDigits(f + [c]) && Value(f + [c]) == 10 * Value(f) + Digit(c)
  {
    assert (f + [c])[..|f|] == f;
  }

  lemma Rejects(s: string, n: nat)
    requires n <= |s| && !Plausible(s[..n])
    ensures !Plausible(s)
  {
    if Plausible(s) {
      PrefixPlausible(s, n);
    }
  }

  /** The scan of `p` so far: complete fields are stored, the field in progress is in the accumulator. */
  ghost predicate Scanned(p: string, acc: nat, dots: nat, b: seq<byte>) {
    && Plausible(p)
    && |Fields(p)| == dots + 1
    && acc == Value(Fields(p)[dots])
    && |b| == 4
    && forall k :: 0 <= k < dots ==> b[k] as nat == Value(Fields(p)[k])
  }

  /** A digit changes the last field only, and only by that digit. */
  lemma DigitExtends(p: string, c: char)
    requires Plausible(p) && IsDigit(c)
    ensures var f, f', n := Fields(p), Fields(p + [c]), |Fields(p)| - 1;
      && |f'| == |f| && (forall k :: 0 <= k < n ==> f'[k] == f[k])
      && AllDigits(f'[n]) && Value(f'[n]) == 10 * Value(f[n]) + Digit(c)
  {
    var f := Fields(p);
    FieldsStep(p, c);
    assert ByteField(f[|f| - 1]);
    DigitStep(f[|f| - 1], c);
  }

  lemma LastFieldDecides(f: seq<string>, f': seq<string>, value: nat)
    requires |f'| == |f| >= 1 && forall k :: 0 <= k < |f| ==> ByteField(f[k])
    requires forall k :: 0 <= k < |f| - 1 ==> f'[k] == f[k]
    requires AllDigits(f'[|f| - 1]) && Value(f'[|f| - 1]) == value
    ensures (forall k :: 0 <= k < |f'| ==> ByteField(f'[k])) <==> value <= 255
  {
    if value <= 255 {
      forall k | 0 <= k < |f'|
        ensures ByteField(f'[k])
      {
        if k < |f| - 1 { assert ByteField(f[k]); }
      }
    } else {
      assert !ByteField(f'[|f| - 1]);
    }
  }

  lemma DigitKeepsPlausible(p: string, c: char)
    requires Plausible(p) && IsDigit(c)
    ensures Plausible(p + [c]) <==> 10 * Value(Fields(p)[|Fields(p)| - 1]) + Digit(c) <= 255
  {
    var f, f' := Fields(p), Fields(p + [c]);
    DigitExtends(p, c);
    LastFieldDecides(f, f', 10 * Value(f[|f| - 1]) + Digit(c));
  }

  lemma ScanDigit(p: string, acc: nat, dots: nat, b: seq<byte>, c: char)
    requires Scanned(p, acc, dots, b) && IsDigit(c)
    ensures acc <= 255
    ensures var acc' := acc * 10 + Digit(c);
      if acc' <= 255 then Scanned(p + [c], acc', dots, b) else !Plausible(p + [c])
  {
    assert ByteField(Fields(p)[dots]);
    DigitExtends(p, c);
    DigitKeepsPlausible(p, c);
  }

  lemma ScanDot(p: string, acc: nat, dots: nat, b: seq<byte>)
    requires Scanned(p, acc, dots, b)
    ensures dots <= 3 && acc <= 255
    ensures if dots < 3 then Scanned(p + ['.'], 0, dots + 1, b[dots := acc as byte]) else !Plausible(p + ['.'])
  {
    FieldsStep(p, '.');
    assert ByteField(Fields(p)[dots]);
    assert ByteField("");
  }

  lemma ScanOther(p: string, acc: nat, dots: nat, b: seq<byte>, c: char)
    requires Scanned(p, acc, dots, b) && !IsDigit(c) && c != '.'
    ensures !Plausible(p + [c])
  {
    FieldsStep(p, c);
    var f := Fields(p + [c])[dots];
    assert f[|f| - 1] == c;
    assert !ByteField(f);
  }

  lemma ScanEnd(p: string, acc: nat, b: seq<byte>)
    requires Scanned(p, acc, 3, b)
    ensures acc <= 255 && Meaning(p) == b[3 := acc as byte]
  {
    assert ByteField(Fields(p)[3]);
  }

  /** One step of the 16-bit accumulator. */
  function Accumulate(acc: nat, d: nat): nat {
    (acc * 10 + d) % 0x1_0000
  }

  lemma NoWrap(acc: nat, d: nat)
    requires acc <= 255 && d < 10
    ensures Accumulate(acc, d) == acc * 10 + d
  {
  }

  class Ip4Address {
    const asArray: array<byte>

    ghost predicate Valid() {
      asArray.Length == 4
    }

    /** The bytes stand for `s`, or, on any error, are cleared. */
    constructor FromString(address: string)
      ensures Valid() && fresh(asArray)
      ensures asArray[..] == Meaning(address)
    {
      asArray := new byte[4];
      new;
      var parsed := Scan(address);
      if !parsed {
        asArray[0], asArray[1], asArray[2], asArray[3] := 0, 0, 0, 0;
      }
    }

    /** One character. The accumulator has 16 bits in the program; it never wraps. */
    method ScanChar(c: char, acc: nat, dots: nat, ghost p: string) returns (ok: bool, acc': nat, dots': nat)
      requires Valid() && Scanned(p, acc, dots, asArray[..])
      modifies asArray
      ensures if ok then Scanned(p + [c], acc', dots', asArray[..]) else !Plausible(p + [c])
    {
      ok, acc', dots' := true, acc, dots;
      ghost var b := asArray[..];
      if IsDigit(c) {
        ScanDigit(p, acc, dots, b, c);
        NoWrap(acc, Digit(c));
        acc' := Accumulate(acc, Digit(c));
        ok := acc' <= 255;
      } else if c == '.' {
        ScanDot(p, acc, dots, b);
        if dots == 3 {
          ok := false;
        } else {
          asArray[dots] := acc as byte;
          assert asArray[..] == b[dots := acc as byte];
          acc', dots' := 0, dots + 1;
        }
      } else {
        ScanOther(p, acc, dots, b, c);
        ok := false;
      }
    }

    /** The loop over the text. */
    method Scan(address: string) returns (ok: bool)
      requires Valid()
      modifies asArray
      ensures ok <==> Plausible(address) && |Fields(address)| == 4
      ensures ok ==> asArray[..] == Meaning(address)
    {
      var acc: nat, dots: nat := 0, 0;
      var i := 0;
      while i < |address|
        invariant 0 <= i <= |address|
        invariant Scanned(address[..i], acc, dots, asArray[..])
      {
        assert address[..i + 1] == address[..i] + [address[i]];
        ok, acc, dots := ScanChar(address[i], acc, dots, address[..i]);
        if !ok {
          Rejects(address, i + 1);
          return;
        }
        i := i + 1;
      }
      assert address[..i] == address;
      if dots != 3 {
        return false;
      }
      ScanEnd(address, acc, asArray[..]);
      asArray[3] := acc as byte;
      ok := true;
    }
  }

  // ---------- the printer ----------

  function DigitChar(d: nat): (c: char)
    requires d < 10
    ensures IsDigit(c) && Digit(c) == d
  {
    ('0' as int + d) as char
  }

  /** `%u`. */
  function Decimal(n: nat): string {
    var last := [DigitChar(n % 10)];
    if n < 10 then last else Decimal(n / 10) + last
  }

  /** `to_string`. */
  function Print(b: seq<byte>): string
    requires |b| == 4
  {
    Dotted(Decimal(b[0] as nat), Decimal(b[1] as nat), Decimal(b[2] as nat), Decimal(b[3] as nat))
  }

  lemma {:induction false} ValueOfDecimal(n: nat)
    ensures AllDigits(Decimal(n)) && Value(Decimal(n)) == n
  {
    var c := DigitChar(n % 10);
    if n < 10 {
      DigitStep("", c);
      assert "" + [c] == [c];
    } else {
      ValueOfDecimal(n / 10);
      DigitStep(Decimal(n / 10), c);
    }
  }

  lemma DigitCharTable(d: nat)
    requires d < 10
    ensures DigitChar(d) == "0123456789"[d]
  {
    DigitTable();
    var c := "0123456789"[d];
    assert Digit(c) == d;
  }

  lemma DecimalDigit(n: nat)
    requires n < 10
    ensures Decimal(n) == ["0123456789"[n]]
  {
    DigitCharTable(n);
    assert n % 10 == n;
  }

  lemma DecimalStep(n: nat)
    requires n >= 10
    ensures Decimal(n) == Decimal(n / 10) + ["0123456789"[n % 10]]
  {
    DigitCharTable(n % 10);
  }

  /** What is printed for a byte, digit by digit: no sign, no padding, no leading zero. */
  lemma DecimalText(n: nat)
    requires n < 1000
    ensures Decimal(n) ==
      if n < 10 then ["0123456789"[n]]
      else if n < 100 then ["0123456789"[n / 10], "0123456789"[n % 10]]
      else ["0123456789"[n / 100], "0123456789"[n / 10 % 10], "0123456789"[n % 10]]
  {
    if n < 10 {
      DecimalDigit(n);
    } else if n < 100 {
      DecimalStep(n);
      DecimalDigit(n / 10);
    } else {
      DecimalStep(n);
      DecimalStep(n / 10);
      DecimalDigit(n / 10 / 10);
      assert n / 10 / 10 == n / 100;
    }
  }

  /** Numbers of any size are printed without a leading zero. */
  lemma {:induction false} NoLeadingZero(n: nat)
    ensures |Decimal(n)| >= 1 && (|Decimal(n)| == 1 || Decimal(n)[0] != '0')
    ensures 1 <= n ==> Decimal(n)[0] != '0'
  {
    if n < 10 {
      DecimalDigit(n);
    } else {
      DecimalStep(n);
      NoLeadingZero(n / 10);
    }
  }

  lemma ByteText(x: byte)
    ensures var digits := "0123456789";
      Decimal(x as nat) ==
        if x < 10 then [digits[x % 10]]
        else if x < 100 then [digits[x / 10 % 10], digits[x % 10]]
        else [digits[x / 100 % 10], digits[x / 10 % 10], digits[x % 10]]
  {
    DecimalText(x as nat);
  }

  /** The printed text, character by character: four numbers without padding, with dots between them. */
  lemma PrintedText(b: seq<byte>)
    requires |b| == 4
    ensures
      var digits := "0123456789";
      var text := (x: byte) =>
        if x < 10 then [digits[x % 10]]
        else if x < 100 then [digits[x / 10 % 10], digits[x % 10]]
        else [digits[x / 100 % 10], digits[x / 10 % 10], digits[x % 10]];
      Print(b) == text(b[0]) + "." + text(b[1]) + "." + text(b[2]) + "." + text(b[3])
  {
    ByteText(b[0]);
    ByteText(b[1]);
    ByteText(b[2]);
    ByteText(b[3]);
  }

  /** Printing then parsing gives the address back, so printing is injective; the text fits the 16-byte buffer. */
  lemma RoundTrip(b: seq<byte>)
    requires |b| == 4
    ensures Meaning(Print(b)) == b
    ensures 7 <= |Print(b)| <= 15
  {
    var d0, d1, d2, d3 := Decimal(b[0] as nat), Decimal(b[1] as nat), Decimal(b[2] as nat), Decimal(b[3] as nat);
    DecimalOfByte(b[0]);
    DecimalOfByte(b[1]);
    DecimalOfByte(b[2]);
    DecimalOfByte(b[3]);
    DottedLength(d0, d1, d2, d3);
    MeaningOfDotted(d0, d1, d2, d3);
  }

  lemma DottedLength(a: string, b: string, c: string, d: string)
    ensures |Dotted(a, b, c, d)| == |a| + |b| + |c| + |d| + 3
  {
  }

  lemma MeaningOfDotted(a: string, b: string, c: string, d: string)
    requires ByteField(a) && ByteField(b) && ByteField(c) && ByteField(d)
    ensures Meaning(Dotted(a, b, c, d)) == [Value(a) as byte, Value(b) as byte, Value(c) as byte, Value(d) as byte]
  {
    Language(Dotted(a, b, c, d));
    assert Spells(Dotted(a, b, c, d), a, b, c, d);
  }

  lemma DecimalOfByte(x: byte)
    ensures ByteField(Decimal(x as nat)) && Value(Decimal(x as nat)) == x as nat
    ensures 1 <= |Decimal(x as nat)| <= 3
  {
    ValueOfDecimal(x as nat);
    DecimalText(x as nat);
  }

  /** The printed text is a normal form: parsing any text, printing and parsing again changes nothing. */
  lemma NormalForm(s: string)
    ensures Meaning(Print(Meaning(s))) == Meaning(s)
    ensures forall t: string :: Meaning(s) == Meaning(t) <==> Print(Meaning(s)) == Print(Meaning(t))
  {
    RoundTrip(Meaning(s));
    forall t: string
      ensures Print(Meaning(s)) == Print(Meaning(t)) ==> Meaning(s) == Meaning(t)
    {
      RoundTrip(Meaning(t));
    }
  }

  // ---------- particular texts ----------

  lemma MeaningOfNumbers(f: seq<string>, n: seq<nat>)
    requires |f| == |n| == 4
    requires forall k :: 0 <= k < 4 ==> AllDigits(f[k]) && Value(f[k]) == n[k] <= 255
    ensures Meaning(Dotted(f[0], f[1], f[2], f[3])) == [n[0] as byte, n[1] as byte, n[2] as byte, n[3] as byte]
  {
    MeaningOfDotted(f[0], f[1], f[2], f[3]);
  }

  /** The program's own addresses. */
  lemma OwnAddress()
    ensures Meaning("192.168.100.1") == [192, 168, 100, 1]
  {
    ValueOfRun(1, 9, 2);
    ValueOfRun(1, 6, 8);
    ValueOfRun(1, 0, 0);
    MeaningOfNumbers(["192", "168", "100", "1"], [192, 168, 100, 1]);
    assert Dotted("192", "168", "100", "1") == "192.168.100.1";
  }

  lemma OwnMask()
    ensures Meaning("255.255.255.0") == [255, 255, 255, 0]
  {
    ValueOfRun(2, 5, 5);
    ValueOfRun(0, 0, 0);
    MeaningOfNumbers(["255", "255", "255", "0"], [255, 255, 255, 0]);
    assert Dotted("255", "255", "255", "0") == "255.255.255.0";
  }

  /** Texts at the edges: empty runs and leading zeros count, a run too large or a field too few clears all. */
  lemma EmptyRunText()
    ensures Meaning("1..002.3") == [1, 0, 2, 3]
  {
    ValueOfRun(0, 0, 2);
    ValueOfRun(1, 0, 0);
    ValueOfRun(3, 0, 0);
    MeaningOfNumbers(["1", "", "002", "3"], [1, 0, 2, 3]);
    assert Dotted("1", "", "002", "3") == "1..002.3";
  }

  lemma TooLargeText()
    ensures Meaning("256.0.0.1") == [0, 0, 0, 0]
  {
    ValueOfRun(2, 5, 6);
    FieldsOfDotted("256", "0", "0", "1");
    assert Dotted("256", "0", "0", "1") == "256.0.0.1";
    assert !ByteField(Fields("256.0.0.1")[0]);
  }

  lemma TooShortText()
    ensures Meaning("1.2") == [0, 0, 0, 0]
  {
    FieldsOfOne("1");
    FieldsNext("1", "2");
    assert "1" + "." + "2" == "1.2";
  }
}
