// The string handling that the text formats rest on: getline-style splitting, joining, decimal and
// hexadecimal numbers, and the key order of std::map<std::string, ...>.
module Text {
  import opened Basics

  // ---------- Splitting and joining ----------

  // What std::getline(in, line, d) reads from the remaining text s, and what it leaves.
  function UpTo(s: string, d: char): (line: string)
    ensures d !in line && |line| <= |s| && line == s[..|line|]
    ensures |line| < |s| ==> s[|line|] == d
  {
    if s == "" || s[0] == d then "" else [s[0]] + UpTo(s[1..], d)
  }

  function Remainder(s: string, d: char): (rest: string)
    ensures s != "" ==> |rest| < |s|
  {
    var n := |UpTo(s, d)|;
    if n == |s| then "" else s[n + 1..]
  }

  // All fields that a getline loop reads: a text that ends with d has no empty last field.
  function Split(s: string, d: char): seq<string>
    decreases |s|
  {
    if s == "" then [] else [UpTo(s, d)] + Split(Remainder(s, d), d)
  }

  // The fields with d between them.
  function JoinWith(parts: seq<string>, d: char): string {
    if parts == [] then ""
    else if |parts| == 1 then parts[0]
    else parts[0] + [d] + JoinWith(parts[1..], d)
  }

  // The lines with d after each.
  function Terminated(lines: seq<string>, d: char): string {
    if lines == [] then "" else lines[0] + [d] + Terminated(lines[1..], d)
  }

  class StringReader {
    const text: string
    var pos: nat

    ghost predicate Valid()
      reads this
    {
      pos <= |text|
    }

    function Rest(): string
      reads this
      requires Valid()
    {
      text[pos..]
    }

    constructor (text: string)
      ensures Valid() && this.text == text && Rest() == text
    {
      this.text := text;
      pos := 0;
    }

    method GetLine(d: char) returns (ok: bool, line: string)
      requires Valid()
      modifies this
      ensures Valid()
      ensures ok <==> old(Rest()) != ""
      ensures ok ==> line == UpTo(old(Rest()), d) && Rest() == Remainder(old(Rest()), d)
      ensures !ok ==> line == "" && Rest() == ""
    {
      ok, line := pos < |text|, "";
      if !ok { return; }
      ghost var rest := Rest();
      while pos < |text| && text[pos] != d
        invariant old(pos) <= pos <= |text|
        invariant rest == line + Rest() && d !in line
        invariant pos == old(pos) + |line|
      {
        OneCharMore(rest, line, text, pos);
        line := line + [text[pos]];
        pos := pos + 1;
      }
      UpToUnique(line, Rest(), d);
      if pos < |text| { pos := pos + 1; }
    }
  }

  lemma {:induction false} UpToEnds(line: string, rest: string, d: char)
    requires d !in line && (rest == "" || rest[0] == d)
    ensures UpTo(line + rest, d) == line
  {
    if line == "" {
      assert line + rest == rest;
    } else {
      UpToEnds(line[1..], rest, d);
      assert (line + rest)[1..] == line[1..] + rest;
    }
  }

  lemma UpToUnique(line: string, rest: string, d: char)
    requires d !in line && (rest == "" || rest[0] == d)
    ensures UpTo(line + rest, d) == line
    ensures Remainder(line + rest, d) == if rest == "" then "" else rest[1..]
  {
    UpToEnds(line, rest, d);
    if rest != "" { assert (line + rest)[|line| + 1..] == rest[1..]; }
  }

  lemma OneCharMore(rest: string, line: string, text: string, pos: nat)
    requires pos < |text| && rest == line + text[pos..]
    ensures rest == (line + [text[pos]]) + text[pos + 1..]
  {
    assert text[pos..] == [text[pos]] + text[pos + 1..];
  }

  lemma SplitFirst(a: string, rest: string, d: char)
    requires d !in a
    ensures Split(a + [d] + rest, d) == [a] + Split(rest, d)
  {
    UpToUnique(a, [d] + rest, d);
    assert a + [d] + rest == a + ([d] + rest);
  }

  ghost predicate Free(parts: seq<string>, d: char) {
    forall i | 0 <= i < |parts| :: d !in parts[i]
  }

  // Reading back what was joined loses at most one empty field, at the end.
  lemma {:induction false} SplitJoin(parts: seq<string>, d: char)
    requires Free(parts, d) && parts != []
    ensures Split(JoinWith(parts, d), d) == DropEmptyLast(parts)
  {
    if |parts| == 1 {
      UpToUnique(parts[0], "", d);
      assert parts[0] + "" == parts[0];
    } else {
      SplitJoin(parts[1..], d);
      SplitFirst(parts[0], JoinWith(parts[1..], d), d);
      DropAfterFirst(parts);
    }
  }

  lemma DropAfterFirst(parts: seq<string>)
    requires |parts| > 1
    ensures [parts[0]] + DropEmptyLast(parts[1..]) == DropEmptyLast(parts)
  {
  }

  function DropEmptyLast(parts: seq<string>): seq<string>
    requires parts != []
  {
    if parts[|parts| - 1] == "" then parts[..|parts| - 1] else parts
  }

  lemma {:induction false} SplitTerminated(lines: seq<string>, d: char)
    requires Free(lines, d)
    ensures Split(Terminated(lines, d), d) == lines
  {
    if lines != [] {
      SplitTerminated(lines[1..], d);
      SplitFirst(lines[0], Terminated(lines[1..], d), d);
    }
  }

  // Fields never contain their separator, nor anything that was not in the text.
  lemma {:induction false} SplitClean(s: string, d: char)
    ensures forall f | f in Split(s, d) :: d !in f && forall c | c in f :: c in s
    decreases |s|
  {
    if s != "" {
      var u, rest := UpTo(s, d), Remainder(s, d);
      SplitClean(rest, d);
      assert forall c | c in rest :: c in s;
    }
  }

  lemma {:induction false} JoinSnoc(parts: seq<string>, last: string, d: char)
    ensures JoinWith(parts + [last], d) == if parts == [] then last else JoinWith(parts, d) + [d] + last
  {
    if |parts| > 1 {
      JoinSnoc(parts[1..], last, d);
      assert (parts + [last])[1..] == parts[1..] + [last];
    }
  }

  lemma {:induction false} TerminatedSnoc(lines: seq<string>, last: string, d: char)
    ensures Terminated(lines + [last], d) == Terminated(lines, d) + last + [d]
  {
    if lines != [] {
      TerminatedSnoc(lines[1..], last, d);
      assert (lines + [last])[1..] == lines[1..] + [last];
    }
  }

  // ---------- Decimal numbers ----------

  function Digit(n: nat): char
    requires n < 10
  {
    '0' + n as char
  }

  function Decimal(n: nat): string {
    if n < 10 then [Digit(n)] else Decimal(n / 10) + [Digit(n % 10)]
  }

  predicate IsDigit(c: char) {
    '0' <= c <= '9'
  }

  function DigitsValue(s: string): nat
    requires forall c | c in s :: IsDigit(c)
  {
    if s == "" then 0 else
    assert IsDigit(s[|s| - 1]) by { assert s[|s| - 1] in s; }
    10 * DigitsValue(s[..|s| - 1]) + (s[|s| - 1] as int - '0' as int)
  }

  // The leading digits of s.
  function LeadingDigits(s: string): (t: string)
    ensures forall c | c in t :: IsDigit(c)
  {
    if s == "" || !IsDigit(s[0]) then "" else [s[0]] + LeadingDigits(s[1..])
  }

  // std::stoull: whatever follows the digits is ignored; no digits, or too large a value, throws.
  function ParseU64(s: string): Result<u64> {
    var t := LeadingDigits(s);
    if t == "" || DigitsValue(t) >= TWO64 then Err else Ok(DigitsValue(t))
  }

  lemma {:induction false} AllDigitsLead(s: string)
    requires forall c | c in s :: IsDigit(c)
    ensures LeadingDigits(s) == s
  {
    if s != "" { AllDigitsLead(s[1..]); }
  }

  lemma {:induction false} DecimalDigits(n: nat)
    ensures Decimal(n) != "" && (forall c | c in Decimal(n) :: IsDigit(c)) && DigitsValue(Decimal(n)) == n
  {
    if n >= 10 {
      DecimalDigits(n / 10);
      var s := Decimal(n);
      assert s[..|s| - 1] == Decimal(n / 10);
    } else {
      assert Decimal(n)[..0] == "";
    }
  }

  lemma DecimalRoundTrip(n: u64)
    ensures ParseU64(Decimal(n)) == Ok(n)
  {
    DecimalDigits(n);
    AllDigitsLead(Decimal(n));
  }

  // One more digit on the right; a single one stands for itself.
  lemma DecimalShift(n: nat, d: nat)
    requires d < 10
    ensures Decimal(d) == ["0123456789"[d]]
    ensures n > 0 ==> Decimal(10 * n + d) == Decimal(n) + ["0123456789"[d]]
  {
  }

  lemma {:induction false} DigitsLead(s: string, t: string)
    requires (forall c | c in s :: IsDigit(c)) && (t == "" || !IsDigit(t[0]))
    ensures LeadingDigits(s + t) == s
  {
    if s == "" {
      assert s + t == t;
    } else {
      DigitsLead(s[1..], t);
      assert (s + t)[1..] == s[1..] + t;
    }
  }

  // A number is read up to the first character that is no digit; it must be there and fit 64 bits.
  lemma NumberIsRead(n: nat, t: string)
    requires t == "" || !IsDigit(t[0])
    ensures ParseU64(Decimal(n) + t) == if n < TWO64 then Ok(n) else Err
    ensures ParseU64(t).Err?
  {
    DecimalDigits(n);
    DigitsLead(Decimal(n), t);
  }

  // ---------- Hexadecimal digests ----------

  function HexDigit(n: nat): char
    requires n < 16
  {
    "0123456789abcdef"[n]
  }

  function HexValue(c: char): int {
    if '0' <= c <= '9' then c as int - '0' as int
    else if 'a' <= c <= 'f' then c as int - 'a' as int + 10
    else if 'A' <= c <= 'F' then c as int - 'A' as int + 10
    else -1
  }

  lemma HexDigitValue(n: nat)
    requires n < 16
    ensures HexValue(HexDigit(n)) == n && HexDigit(n) !in "\t\n,:"
  {
  }

  function ToHex(d: Bytes): string {
    if d == [] then "" else [HexDigit(d[0] / 16), HexDigit(d[0] % 16)] + ToHex(d[1..])
  }

  // std::stoi(two characters, 16): a second character that is no digit is ignored.
  function HexByte(hi: char, lo: char): Result<byte> {
    if HexValue(hi) < 0 then Err
    else if HexValue(lo) < 0 then Ok(HexValue(hi))
    else Ok(16 * HexValue(hi) + HexValue(lo))
  }

  lemma HexValues(n: nat, x: char)
    requires n < 16
    ensures HexValue("0123456789abcdef"[n]) == n && HexValue("0123456789ABCDEF"[n]) == n
    ensures HexValue(x) >= 0 ==> x in "0123456789abcdefABCDEF"
  {
    var s := "0123456789abcdefABCDEF";
    if '0' <= x <= '9' {
      assert x == s[x as int - '0' as int];
    } else if 'a' <= x <= 'f' {
      assert x == s[x as int - 'a' as int + 10];
    } else if 'A' <= x <= 'F' {
      assert x == s[x as int - 'A' as int + 16];
    }
  }

  // Digits of either case; a second character that is no digit is ignored, a first one is an error.
  lemma HexByteCases(n: nat, m: nat, x: char, y: char)
    requires n < 16 && m < 16 && x !in "0123456789abcdefABCDEF"
    ensures HexByte("0123456789abcdef"[n], "0123456789abcdef"[m]) == Ok(16 * n + m)
    ensures HexByte("0123456789ABCDEF"[n], "0123456789ABCDEF"[m]) == Ok(16 * n + m)
    ensures HexByte("0123456789abcdef"[n], x) == Ok(n) && HexByte(x, y).Err?
  {
    HexValues(n, x);
    HexValues(m, x);
  }

  // The first n bytes; those for which the text is too short stay zero.
  function HexBytes(hex: string, n: nat): (r: Result<Bytes>)
    ensures r.Ok? ==> |r.value| == n
  {
    if n == 0 then Ok([])
    else if |hex| < 2 then Ok(seq(n, i => 0))
    else match (HexByte(hex[0], hex[1]), HexBytes(hex[2..], n - 1))
      case (Ok(b), Ok(rest)) => Ok([b] + rest)
      case _ => Err
  }

  lemma HexByteRoundTrip(b: byte)
    ensures HexByte(HexDigit(b / 16), HexDigit(b % 16)) == Ok(b)
    ensures HexDigit(b / 16) !in "\t\n,:" && HexDigit(b % 16) !in "\t\n,:"
  {
    HexDigitValue(b / 16);
    HexDigitValue(b % 16);
  }

  lemma {:induction false} HexRoundTrip(d: Bytes)
    ensures HexBytes(ToHex(d), |d|) == Ok(d)
    ensures |ToHex(d)| == 2 * |d| && forall c | c in ToHex(d) :: c !in "\t\n,:"
  {
    if d != [] {
      HexRoundTrip(d[1..]);
      HexByteRoundTrip(d[0]);
      assert ToHex(d)[2..] == ToHex(d[1..]);
      assert d == [d[0]] + d[1..];
    }
  }

  lemma {:induction false} HexLength(d: Bytes)
    ensures |ToHex(d)| == 2 * |d|
  {
    if d != [] { HexLength(d[1..]); }
  }

  // Two characters a byte, the upper four bits first.
  lemma {:induction false} HexOfByte(d: Bytes, i: nat)
    requires i < |d|
    ensures |ToHex(d)| == 2 * |d|
    ensures ToHex(d)[2 * i] == "0123456789abcdef"[d[i] / 16] && ToHex(d)[2 * i + 1] == "0123456789abcdef"[d[i] % 16]
  {
    HexLength(d);
    if i > 0 {
      HexOfByte(d[1..], i - 1);
      var t := ToHex(d[1..]);
      assert ToHex(d) == [HexDigit(d[0] / 16), HexDigit(d[0] % 16)] + t;
      assert ToHex(d)[2 * i] == t[2 * (i - 1)] && ToHex(d)[2 * i + 1] == t[2 * (i - 1) + 1];
    }
  }

  // A text that is too long is cut, one that is too short filled up with zeros.
  lemma {:induction false} HexOfOtherLength(d: Bytes, n: nat)
    ensures var r := HexBytes(ToHex(d), n);
        r.Ok? && |r.value| == n && forall k | 0 <= k < n :: r.value[k] == if k < |d| then d[k] else 0
  {
    if d != [] && n > 0 {
      HexOfOtherLength(d[1..], n - 1);
      HexByteRoundTrip(d[0]);
      assert ToHex(d)[2..] == ToHex(d[1..]);
      assert HexBytes(ToHex(d), n).value == [d[0]] + HexBytes(ToHex(d[1..]), n - 1).value;
    }
  }

  // ---------- Key order ----------

  // Up to some place the two are the same, and there a ends or has the smaller character.
  ghost predicate Precedes(a: string, b: string) {
    exists k: nat | k <= |a| && k < |b| :: a[..k] == b[..k] && (k == |a| || a[k] < b[k])
  }

  lemma {:induction false} LexPrecedes(a: string, b: string)
    requires LexLeq(a, b) && a != b
    ensures Precedes(a, b)
  {
    if a == "" || a[0] < b[0] {
      assert a[..0] == b[..0];
    } else {
      assert a == [a[0]] + a[1..] && b == [b[0]] + b[1..];
      LexPrecedes(a[1..], b[1..]);
      var k: nat :| k <= |a[1..]| && k < |b[1..]| && a[1..][..k] == b[1..][..k] && (k == |a[1..]| || a[1..][k] < b[1..][k]);
      assert a[..k + 1] == [a[0]] + a[1..][..k] && b[..k + 1] == [b[0]] + b[1..][..k];
    }
  }

  lemma {:induction false} SortedKeysAscend(s: set<string>)
    ensures forall i, j | 0 <= i < j < |SortedKeys(s)| :: Precedes(SortedKeys(s)[i], SortedKeys(s)[j])
  {
    var keys := SortedKeys(s);
    if s != {} {
      FirstExists(s);
      var m := keys[0];
      assert IsFirst(m, s) && keys == [m] + SortedKeys(s - {m});
      SortedKeysAscend(s - {m});
      forall i, j | 0 <= i < j < |keys|
        ensures Precedes(keys[i], keys[j])
      {
        if i == 0 {
          assert keys[j] in keys;
          LexPrecedes(m, keys[j]);
        } else {
          assert keys[i] == keys[1..][i - 1] && keys[j] == keys[1..][j - 1];
        }
      }
    }
  }

  predicate LexLeq(a: string, b: string) {
    a == "" || (b != "" && (a[0] < b[0] || (a[0] == b[0] && LexLeq(a[1..], b[1..]))))
  }

  lemma {:induction false} LexTotal(a: string, b: string)
    ensures LexLeq(a, b) || LexLeq(b, a)
    ensures LexLeq(a, b) && LexLeq(b, a) ==> a == b
  {
    if a != "" && b != "" && a[0] == b[0] {
      LexTotal(a[1..], b[1..]);
      assert a == [a[0]] + a[1..] && b == [b[0]] + b[1..];
    }
  }

  lemma {:induction false} LexTransitive(a: string, b: string, c: string)
    requires LexLeq(a, b) && LexLeq(b, c)
    ensures LexLeq(a, c)
  {
    if a != "" && a[0] == b[0] == c[0] { LexTransitive(a[1..], b[1..], c[1..]); }
  }

  predicate IsFirst(m: string, s: set<string>) {
    m in s && forall x | x in s :: LexLeq(m, x)
  }

  lemma FirstExists(s: set<string>)
    requires s != {}
    ensures exists m :: IsFirst(m, s)
    ensures forall m, n | IsFirst(m, s) && IsFirst(n, s) :: m == n
  {
    var x :| x in s;
    if s == {x} {
      LexTotal(x, x);
      assert IsFirst(x, s);
    } else {
      FirstExists(s - {x});
      var m :| IsFirst(m, s - {x});
      LexTotal(x, m);
      var f := if LexLeq(x, m) then x else m;
      forall y | y in s ensures LexLeq(f, y) {
        if y == x { LexTotal(x, x); } else if f == x { LexTransitive(x, m, y); }
      }
      assert IsFirst(f, s);
    }
    forall m, n | IsFirst(m, s) && IsFirst(n, s) ensures m == n { LexTotal(m, n); }
  }

  // The keys in the order in which std::map iterates.
  function SortedKeys(s: set<string>): (keys: seq<string>)
    ensures forall k :: k in keys <==> k in s
    ensures forall i, j | 0 <= i < j < |keys| :: keys[i] != keys[j]
  {
    if s == {} then [] else
    FirstExists(s);
    var m :| IsFirst(m, s);
    [m] + SortedKeys(s - {m})
  }
}
