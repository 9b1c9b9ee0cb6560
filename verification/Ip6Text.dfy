/** IPv6 addresses as text: the fixed-width parser and the fully expanded printer. */
module Ip6Text {
  import opened Bytes

  /** What one call of `sscanf` with `%2hhx` can come back with; the function itself is library code. */
  datatype Scanned = Matched(value: byte) | NoMatch | EndOfInput

  predicate IsHex(c: char) {
    '0' <= c <= '9' || 'a' <= c <= 'f' || 'A' <= c <= 'F'
  }

  function HexValue(c: char): (d: nat)
    requires IsHex(c)
    ensures d < 16
  {
    if '0' <= c <= '9' then c as int - '0' as int
    else if 'a' <= c <= 'f' then c as int - 'a' as int + 10
    else c as int - 'A' as int + 10
  }

  /** The sixteen digits in both cases. */
  lemma HexTable()
    ensures forall c :: IsHex(c) <==> c in "0123456789abcdef" || c in "ABCDEF"
    ensures forall d :: 0 <= d < 16 ==>
      IsHex("0123456789abcdef"[d]) && HexValue("0123456789abcdef"[d]) == d
      && IsHex("0123456789ABCDEF"[d]) && HexValue("0123456789ABCDEF"[d]) == d
  {
    forall c
      ensures IsHex(c) ==> c in "0123456789abcdef" || c in "ABCDEF"
    {
      if '0' <= c <= '9' {
        assert "0123456789abcdef"[c as int - '0' as int] == c;
      } else if 'a' <= c <= 'f' {
        assert "0123456789abcdef"[c as int - 'a' as int + 10] == c;
      } else if 'A' <= c <= 'F' {
        assert "ABCDEF"[c as int - 'A' as int] == c;
      }
    }
  }

  /** All that is assumed of the library: two hex digits are read as the byte they spell. */
  ghost predicate ReadsHex(scan: string -> Scanned) {
    forall s: string :: 2 <= |s| && IsHex(s[0]) && IsHex(s[1]) ==>
      scan(s) == Matched((16 * HexValue(s[0]) + HexValue(s[1])) as byte)
  }

  /** Where the two digits of byte `k` stand: groups at stride 5, bytes at offsets 0 and 2. */
  function Place(k: nat): (j: nat)
    requires k < 16
    ensures j <= 37
  {
    5 * (k / 2) + 2 * (k % 2)
  }

  const TEXT_LENGTH: nat := 39

  function Zeros(): seq<byte> {
    seq(16, _ => 0)
  }

  /** What byte `k` becomes: a value read, or what was in memory when the scan met the end of input. */
  function Stored(r: Scanned, before: byte): byte {
    if r.Matched? then r.value else before
  }

  /** Places, zeros and stored bytes, written out. */
  lemma ParserTable(r: Scanned, before: byte)
    ensures forall k :: 0 <= k < 16 ==>
      Place(k) == [0, 2, 5, 7, 10, 12, 15, 17, 20, 22, 25, 27, 30, 32, 35, 37][k]
    ensures TEXT_LENGTH == 39 && Zeros() == [0, 0, 0, 0, 0, 0, 0, 0, 0, 0, 0, 0, 0, 0, 0, 0]
    ensures Stored(r, before) == match r case Matched(value) => value case _ => before
  {
  }

  /** A text of the right length that some scan does not match: the parser gives up in the middle. */
  ghost predicate GivesUp(s: string, scan: string -> Scanned) {
    |s| == TEXT_LENGTH && exists k :: 0 <= k < 16 && scan(s[Place(k)..]).NoMatch?
  }

  /**
   What the parser leaves in the sixteen bytes: all zero when the length is wrong or any of the
   sixteen scans does not match, and otherwise each byte as its own scan left it.
   */
  ghost predicate ParsedTo(s: string, scan: string -> Scanned, memory: seq<byte>, b: seq<byte>)
    requires |memory| == 16
  {
    && |b| == 16
    && if |s| != TEXT_LENGTH || GivesUp(s, scan) then
         b == Zeros()
       else
         forall k :: 0 <= k < 16 ==> b[k] == Stored(scan(s[Place(k)..]), memory[k])
  }

  /** The same case by case, with the zeros written out. */
  lemma ParseCases(s: string, scan: string -> Scanned, memory: seq<byte>, b: seq<byte>, k: nat)
    requires |memory| == 16 && ParsedTo(s, scan, memory, b) && k < 16
    ensures var zeros := [0, 0, 0, 0, 0, 0, 0, 0, 0, 0, 0, 0, 0, 0, 0, 0];
      && (|s| != 39 ==> b == zeros && !GivesUp(s, scan))
      && (|s| == 39 && scan(s[5 * (k / 2) + 2 * (k % 2)..]).NoMatch? ==> b == zeros && GivesUp(s, scan))
      && (|s| == 39 && !GivesUp(s, scan) ==>
            match scan(s[5 * (k / 2) + 2 * (k % 2)..])
            case Matched(value) => b[k] == value
            case EndOfInput => b[k] == memory[k]
            case NoMatch => false)
  {
    ParserTable(NoMatch, 0);
    assert Place(k) == 5 * (k / 2) + 2 * (k % 2);
    assert !GivesUp(s, scan) && |s| == 39 ==> !scan(s[Place(k)..]).NoMatch?;
  }

  class Ip6Address {
    const numbers: array<byte>
    var scopeId: int

    /** `memory` and `scope` are what the uninitialised object happens to hold; giving up leaves the scope so. */
    constructor FromString(address: string, scan: string -> Scanned, memory: seq<byte>, scope: int)
      requires |memory| == 16
      ensures numbers.Length == 16 && fresh(numbers)
      ensures ParsedTo(address, scan, memory, numbers[..])
      ensures scopeId == if GivesUp(address, scan) then scope else 0
    {
      numbers := new byte[16](i requires 0 <= i < 16 => memory[i]);
      scopeId := scope;
      new;
      if |address| == TEXT_LENGTH {
        var complete := Parse(address, scan);
        if !complete {
          return;
        }
      } else {
        Clear();
      }
      scopeId := 0;
    }

    method Clear()
      requires numbers.Length == 16
      modifies numbers
      ensures numbers[..] == Zeros()
    {
      forall i | 0 <= i < 16 {
        numbers[i] := 0;
      }
    }

    method Parse(address: string, scan: string -> Scanned) returns (complete: bool)
      requires numbers.Length == 16 && |address| == TEXT_LENGTH
      modifies numbers
      ensures ParsedTo(address, scan, old(numbers[..]), numbers[..])
      ensures complete <==> !GivesUp(address, scan)
    {
      ghost var memory := numbers[..];
      var i, pos := 0, 0;
      while i < 16
        invariant i % 2 == 0 && 0 <= i <= 16 && 2 * pos == 5 * i
        invariant forall k :: 0 <= k < i ==> !scan(address[Place(k)..]).NoMatch?
        invariant forall k :: 0 <= k < i ==> numbers[k] == Stored(scan(address[Place(k)..]), memory[k])
        invariant forall k :: i <= k < 16 ==> numbers[k] == memory[k]
      {
        assert Place(i) == pos && Place(i + 1) == pos + 2;
        var high := scan(address[pos..]);
        if high.NoMatch? {
          Clear();
          return false;
        }
        numbers[i] := Stored(high, numbers[i]);
        var low := scan(address[pos + 2..]);
        if low.NoMatch? {
          Clear();
          return false;
        }
        numbers[i + 1] := Stored(low, numbers[i + 1]);
        i, pos := i + 2, pos + 5;
      }
      complete := true;
    }
  }

  // ---------- the printer ----------

  function HexDigit(d: nat): (c: char)
    requires d < 16
    ensures IsHex(c) && HexValue(c) == d && IsLowerHex(c)
  {
    if d < 10 then ('0' as int + d) as char else ('a' as int + d - 10) as char
  }

  /** `%02x%02x`. */
  function Group(high: byte, low: byte): (s: string)
    ensures |s| == 4
  {
    [HexDigit(high as nat / 16), HexDigit(high as nat % 16), HexDigit(low as nat / 16), HexDigit(low as nat % 16)]
  }

  /** The groups from the given one on, separated by colons. */
  function PrintFrom(b: seq<byte>, group: nat): (s: string)
    requires |b| == 16 && group < 8
    ensures |s| == TEXT_LENGTH - 5 * group
    decreases 8 - group
  {
    var g := Group(b[2 * group], b[2 * group + 1]);
    if group == 7 then g else g + ":" + PrintFrom(b, group + 1)
  }

  /** The sixteen bytes as `to_string` prints them. */
  function Print(b: seq<byte>): (s: string)
    requires |b| == 16
    ensures |s| == TEXT_LENGTH
  {
    PrintFrom(b, 0)
  }

  lemma {:induction false} PrintSuffix(b: seq<byte>, group: nat, last: nat)
    requires |b| == 16 && group <= last < 8
    ensures PrintFrom(b, group)[5 * (last - group)..] == PrintFrom(b, last)
    decreases last - group
  {
    if group < last {
      PrintSuffix(b, group + 1, last);
      var head := Group(b[2 * group], b[2 * group + 1]) + ":";
      assert PrintFrom(b, group) == head + PrintFrom(b, group + 1);
      assert (head + PrintFrom(b, group + 1))[5..] == PrintFrom(b, group + 1);
      assert PrintFrom(b, group)[5 * (last - group)..] == PrintFrom(b, group + 1)[5 * (last - group - 1)..];
    }
  }

  /** Group `group` stands at stride 5. */
  lemma PrintedGroup(b: seq<byte>, group: nat, i: nat)
    requires |b| == 16 && group < 8 && i < 4
    ensures Print(b)[5 * group + i] == Group(b[2 * group], b[2 * group + 1])[i]
  {
    PrintSuffix(b, 0, group);
    var text, tail := Print(b), PrintFrom(b, group);
    assert text[5 * group..] == tail;
    assert text[5 * group + i] == tail[i];
  }

  lemma PrintedColon(b: seq<byte>, group: nat)
    requires |b| == 16 && group < 7
    ensures Print(b)[5 * group + 4] == ':'
  {
    PrintSuffix(b, 0, group);
    var text, tail := Print(b), PrintFrom(b, group);
    assert text[5 * group..] == tail;
    assert text[5 * group + 4] == tail[4];
  }

  predicate IsLowerHex(c: char) {
    '0' <= c <= '9' || 'a' <= c <= 'f'
  }

  lemma GroupIsLower(high: byte, low: byte, i: nat)
    requires i < 4
    ensures IsLowerHex(Group(high, low)[i])
  {
  }

  lemma GroupSpells(high: byte, low: byte)
    ensures var g := Group(high, low);
      && 16 * HexValue(g[0]) + HexValue(g[1]) == high as nat
      && 16 * HexValue(g[2]) + HexValue(g[3]) == low as nat
  {
  }

  /** The two digits at the place of byte `k` spell `x`. */
  predicate SpellsAt(s: string, k: nat, x: byte)
    requires |s| == TEXT_LENGTH && k < 16
  {
    var high, low := s[Place(k)], s[Place(k) + 1];
    IsHex(high) && IsHex(low) && 16 * HexValue(high) + HexValue(low) == x as nat
  }

  lemma PrintedHigh(b: seq<byte>, group: nat)
    requires |b| == 16 && group < 8
    ensures SpellsAt(Print(b), 2 * group, b[2 * group])
  {
    var s, g := Print(b), Group(b[2 * group], b[2 * group + 1]);
    GroupSpells(b[2 * group], b[2 * group + 1]);
    PrintedGroup(b, group, 0);
    PrintedGroup(b, group, 1);
    var j := Place(2 * group);
    assert j == 5 * group;
    assert s[j] == g[0] && s[j + 1] == g[1];
  }

  lemma PrintedLow(b: seq<byte>, group: nat)
    requires |b| == 16 && group < 8
    ensures SpellsAt(Print(b), 2 * group + 1, b[2 * group + 1])
  {
    var s, g := Print(b), Group(b[2 * group], b[2 * group + 1]);
    GroupSpells(b[2 * group], b[2 * group + 1]);
    PrintedGroup(b, group, 2);
    PrintedGroup(b, group, 3);
    var j := Place(2 * group + 1);
    assert j == 5 * group + 2;
    assert s[j] == g[2] && s[j + 1] == g[3];
  }

  lemma PrintedAt(b: seq<byte>, k: nat)
    requires |b| == 16 && k < 16
    ensures SpellsAt(Print(b), k, b[k])
  {
    var group := k / 2;
    if k == 2 * group {
      PrintedHigh(b, group);
    } else {
      assert k == 2 * group + 1;
      PrintedLow(b, group);
    }
  }

  /**
   The printed text is the fully expanded form of section 2.2 of RFC 4291: 39 characters, a colon
   after every group of four, lower-case hex digits everywhere else.
   */
  lemma PrintedForm(b: seq<byte>, group: nat, i: nat)
    requires |b| == 16 && group < 8 && i < 5 && 5 * group + i < TEXT_LENGTH
    ensures |Print(b)| == 39
    ensures if i == 4 then Print(b)[5 * group + i] == ':' else IsLowerHex(Print(b)[5 * group + i])
  {
    if i < 4 {
      PrintedGroup(b, group, i);
      GroupIsLower(b[2 * group], b[2 * group + 1], i);
    } else {
      PrintedColon(b, group);
    }
  }

  lemma HexDigitTable(d: nat)
    requires d < 16
    ensures HexDigit(d) == "0123456789abcdef"[d]
  {
    if d < 10 {
      assert "0123456789abcdef"[d] as int == '0' as int + d;
    } else {
      assert "0123456789abcdef"[d] as int == 'a' as int + d - 10;
    }
  }

  lemma GroupText(high: byte, low: byte)
    ensures var digits := "0123456789abcdef";
      Group(high, low) == [digits[high as nat / 16], digits[high as nat % 16], digits[low as nat / 16],
                           digits[low as nat % 16]]
  {
    HexDigitTable(high as nat / 16);
    HexDigitTable(high as nat % 16);
    HexDigitTable(low as nat / 16);
    HexDigitTable(low as nat % 16);
  }

  /** What is printed, character by character: groups of two bytes at stride 5, each byte in two lower-case digits. */
  lemma PrintedText(b: seq<byte>, group: nat)
    requires |b| == 16 && group < 8
    ensures |Print(b)| == 39
    ensures var digits, high, low := "0123456789abcdef", b[2 * group] as nat, b[2 * group + 1] as nat;
      Print(b)[5 * group..5 * group + 4] == [digits[high / 16], digits[high % 16], digits[low / 16], digits[low % 16]]
  {
    GroupText(b[2 * group], b[2 * group + 1]);
    var printed, g := Print(b)[5 * group..5 * group + 4], Group(b[2 * group], b[2 * group + 1]);
    forall i | 0 <= i < 4
      ensures printed[i] == g[i]
    {
      PrintedGroup(b, group, i);
    }
    assert printed == g;
  }

  lemma ScanOfSpelled(s: string, scan: string -> Scanned, k: nat, x: byte)
    requires ReadsHex(scan) && |s| == TEXT_LENGTH && k < 16 && SpellsAt(s, k, x)
    ensures scan(s[Place(k)..]) == Matched(x)
  {
    var at := s[Place(k)..];
    assert at[0] == s[Place(k)] && at[1] == s[Place(k) + 1];
  }

  /**
   Only the digits decide: whatever stands between the groups, 39 characters with hex digits in
   place give the bytes they spell.
   */
  lemma DigitsDecide(s: string, scan: string -> Scanned, memory: seq<byte>, parsed: seq<byte>, b: seq<byte>)
    requires ReadsHex(scan) && |memory| == 16 && ParsedTo(s, scan, memory, parsed)
    requires |s| == TEXT_LENGTH && |b| == 16
    requires forall k :: 0 <= k < 16 ==> SpellsAt(s, k, b[k])
    ensures parsed == b
  {
    forall k | 0 <= k < 16
      ensures scan(s[Place(k)..]) == Matched(b[k])
    {
      ScanOfSpelled(s, scan, k, b[k]);
    }
  }

  /** Parsing the printed form restores all sixteen bytes, whatever memory held before. */
  lemma RoundTrip(b: seq<byte>, scan: string -> Scanned, memory: seq<byte>, parsed: seq<byte>)
    requires ReadsHex(scan) && |memory| == 16 && |b| == 16
    ensures ParsedTo(Print(b), scan, memory, parsed) ==> parsed == b
  {
    forall k | 0 <= k < 16
      ensures SpellsAt(Print(b), k, b[k])
    {
      PrintedAt(b, k);
    }
    if ParsedTo(Print(b), scan, memory, parsed) {
      DigitsDecide(Print(b), scan, memory, parsed, b);
    }
  }

  /** Different addresses print differently. */
  lemma PrintIsInjective(a: seq<byte>, b: seq<byte>)
    requires |a| == 16 && |b| == 16 && Print(a) == Print(b)
    ensures a == b
  {
    forall k | 0 <= k < 16
      ensures a[k] == b[k]
    {
      PrintedAt(a, k);
      PrintedAt(b, k);
    }
  }
}
