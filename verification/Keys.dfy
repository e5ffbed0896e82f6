/** Key encodings of evm-ingestion/storage/pebble.go and their byte order. */
module Keys {
  import opened Prelude

  // ----- positional numerals: "%020d" (base 10) and binary.BigEndian (base 256) -----

  function Digits(b: nat, w: nat, n: nat): (d: seq<nat>)
    requires b >= 2
    ensures |d| == w && forall i :: 0 <= i < w ==> d[i] < b
  {
    if w == 0 then [] else Digits(b, w - 1, n / b) + [n % b]
  }

  function Value(b: nat, d: seq<nat>): nat {
    if d == [] then 0 else Value(b, d[..|d| - 1]) * b + d[|d| - 1]
  }

  function Pow(b: nat, e: nat): nat {
    if e == 0 then 1 else Pow(b, e - 1) * b
  }

  lemma DivBelow(n: nat, b: nat, p: nat)
    requires b > 0 && n < p * b
    ensures n / b < p
  {
    var q := n / b;
    assert q * b <= n;
    assert q >= p ==> q * b >= p * b;
  }

  lemma ValueSnoc(b: nat, d: seq<nat>, x: nat)
    ensures Value(b, d + [x]) == Value(b, d) * b + x
  {
    assert (d + [x])[..|d|] == d;
  }

  lemma {:induction false} ValueOfDigits(b: nat, w: nat, n: nat)
    requires b >= 2 && n < Pow(b, w)
    ensures Value(b, Digits(b, w, n)) == n
  {
    hide Value;
    if w > 0 {
      DivBelow(n, b, Pow(b, w - 1));
      ValueOfDigits(b, w - 1, n / b);
      ValueSnoc(b, Digits(b, w - 1, n / b), n % b);
    } else {
      EmptyValue(b);
    }
  }

  lemma EmptyValue(b: nat)
    ensures Value(b, []) == 0
  {
  }

  lemma {:induction false} ValueBelow(b: nat, d: seq<nat>)
    requires b >= 2 && forall i :: 0 <= i < |d| ==> d[i] < b
    ensures Value(b, d) < Pow(b, |d|)
  {
    if d != [] {
      ValueBelow(b, d[..|d| - 1]);
      assert (Value(b, d[..|d| - 1]) + 1) * b <= Pow(b, |d| - 1) * b;
    }
  }

  lemma TwentyDigitsHoldU64()
    ensures TWO64 <= Pow(10, 20)
  {
    assert Pow(10, 4) == 10000;
    assert Pow(10, 8) == 1_0000_0000;
    assert Pow(10, 12) == 1_0000_0000_0000;
    assert Pow(10, 16) == 1_0000_0000_0000_0000;
    assert Pow(10, 20) == 1_0000_0000_0000_0000_0000;
  }

  lemma EightBytesHoldU64()
    ensures TWO64 == Pow(256, 8)
  {
    assert Pow(256, 4) == 0x1_0000_0000;
    assert Pow(256, 8) == 0x1_0000_0000_0000_0000;
  }

  // ----- byte order -----

  /** bytes.Compare(a, b) < 0. */
  predicate LexLess(a: string, b: string) {
    if b == [] then false
    else if a == [] then true
    else a[0] < b[0] || (a[0] == b[0] && LexLess(a[1..], b[1..]))
  }

  lemma {:induction false} LexTotal(a: string, b: string)
    ensures LexLess(a, b) || a == b || LexLess(b, a)
    ensures !(LexLess(a, b) && LexLess(b, a)) && (a == b ==> !LexLess(a, b))
  {
    if a != [] && b != [] {
      LexTotal(a[1..], b[1..]);
      assert a == [a[0]] + a[1..] && b == [b[0]] + b[1..];
    }
  }

  lemma {:induction false} LexTransitive(a: string, b: string, c: string)
    requires LexLess(a, b) && LexLess(b, c)
    ensures LexLess(a, c)
  {
    if a != [] && a[0] == b[0] && b[0] == c[0] {
      LexTransitive(a[1..], b[1..], c[1..]);
    }
  }

  lemma {:induction false} LexCommonPrefix(p: string, a: string, b: string)
    ensures LexLess(p + a, p + b) <==> LexLess(a, b)
  {
    if p == [] {
      assert p + a == a && p + b == b;
    } else {
      LexCommonPrefix(p[1..], a, b);
      assert (p + a)[1..] == p[1..] + a && (p + b)[1..] == p[1..] + b;
    }
  }

  /** Strings of one length that already differ keep their order whatever follows. */
  lemma {:induction false} LexDecided(a: string, b: string, x: string, y: string)
    requires |a| == |b| && a != b
    ensures LexLess(a + x, b + y) <==> LexLess(a, b)
  {
    if a != [] {
      assert (a + x)[1..] == a[1..] + x && (b + y)[1..] == b[1..] + y;
      assert a == [a[0]] + a[1..] && b == [b[0]] + b[1..];
      if a[0] == b[0] {
        LexDecided(a[1..], b[1..], x, y);
      }
    }
  }

  /** The bounds ["p:", "p;") of a range iterator select exactly the keys with prefix "p:". */
  lemma RangeIsPrefix(p: string, key: string)
    ensures (!LexLess(key, p + ":") && LexLess(key, p + ";")) <==> (p + ":") <= key
    decreases |p|
  {
    if p == [] {
      assert p + ":" == ":" && p + ";" == ";";
      assert LexLess(key, ":") <==> key == [] || key[0] < ':';
      assert key != [] ==> (LexLess(key, ";") <==> key[0] < ';');
      assert ":" <= key <==> key != [] && key[0] == ':';
    } else if key != [] && key[0] == p[0] {
      RangeIsPrefix(p[1..], key[1..]);
      assert (p + ":")[1..] == p[1..] + ":" && (p + ";")[1..] == p[1..] + ";";
      assert key == [key[0]] + key[1..] && p + ":" == [p[0]] + (p[1..] + ":");
    } else {
      assert (p + ":")[0] == p[0] && (p + ";")[0] == p[0];
    }
  }

  // ----- decimal text -----

  function Chars(d: seq<nat>): (s: string)
    requires forall i :: 0 <= i < |d| ==> d[i] < 10
    ensures |s| == |d| && forall i :: 0 <= i < |d| ==> s[i] == '0' + d[i] as char
  {
    seq(|d|, i requires 0 <= i < |d| => '0' + d[i] as char)
  }

  /** fmt.Sprintf("%020d", n) for a uint64. */
  function Decimal20(n: u64): (s: string)
    ensures |s| == 20
  {
    Chars(Digits(10, 20, n))
  }

  lemma Decimal20IsDigits(n: u64)
    ensures forall c :: c in Decimal20(n) ==> IsDigit(c)
  {
  }

  predicate IsDigit(c: char) {
    '0' <= c <= '9'
  }

  /** strconv.ParseUint(s, 10, 64): fails on empty text, on a non-digit and on overflow. */
  function ParseUint(s: string): Option<u64> {
    if s == "" || exists i :: 0 <= i < |s| && !IsDigit(s[i]) then None
    else
      var v := Value(10, seq(|s|, i requires 0 <= i < |s| => (s[i] - '0') as nat));
      if v < TWO64 then Some(v) else None
  }

  lemma ParseDecimal20(n: u64)
    ensures ParseUint(Decimal20(n)) == Some(n)
  {
    var d := Digits(10, 20, n);
    var s := Chars(d);
    assert seq(|s|, i requires 0 <= i < |s| => (s[i] - '0') as nat) == d;
    TwentyDigitsHoldU64();
    ValueOfDigits(10, 20, n);
  }

  lemma {:induction false} DigitsOrder(w: nat, m: nat, n: nat)
    requires m < Pow(10, w) && n < Pow(10, w)
    ensures LexLess(Chars(Digits(10, w, m)), Chars(Digits(10, w, n))) <==> m < n
    ensures Chars(Digits(10, w, m)) == Chars(Digits(10, w, n)) <==> m == n
  {
    if w > 0 {
      var a, b := Chars(Digits(10, w - 1, m / 10)), Chars(Digits(10, w - 1, n / 10));
      var x, y := ['0' + (m % 10) as char], ['0' + (n % 10) as char];
      assert Chars(Digits(10, w, m)) == a + x && Chars(Digits(10, w, n)) == b + y;
      DigitsOrder(w - 1, m / 10, n / 10);
      if a == b {
        LexCommonPrefix(a, x, y);
        assert LexLess(x, y) <==> x[0] < y[0];
        assert (a + x)[|a|] == x[0] && (b + y)[|b|] == y[0];
      } else {
        LexDecided(a, b, x, y);
        assert (a + x)[..|a|] == a && (b + y)[..|b|] == b;
      }
    }
  }

  // ----- keys -----

  function BlockKey(n: u64): string {
    "block:" + Decimal20(n)
  }

  function BatchKey(start: u64, end: u64): string {
    "batch:" + Decimal20(start) + "-" + Decimal20(end)
  }

  const META_KEY: string := "meta"

  /** The longest run of digits at the front of s, of at most w characters. */
  function DigitRun(s: string, w: nat): (r: string)
    ensures r <= s && |r| <= w
  {
    if w == 0 || s == "" || !IsDigit(s[0]) then ""
    else [s[0]] + DigitRun(s[1..], w - 1)
  }

  /** fmt.Sscanf(key, "block:%020d", &num): the literal, then up to twenty digits; what follows is ignored. */
  function ParseBlockKey(key: string): Option<u64> {
    if "block:" <= key then ParseUint(DigitRun(key[6..], 20)) else None
  }

  function ParseBatchKey(key: string): Option<(u64, u64)> {
    var parts := Split(key, ':');
    if |parts| != 2 || parts[0] != "batch" then None
    else
      var range := Split(parts[1], '-');
      if |range| != 2 then None
      else
        match (ParseUint(range[0]), ParseUint(range[1]))
        case (Some(s), Some(e)) => Some((s, e))
        case _ => None
  }

  lemma BatchTextParses(key: string, a: string, b: string)
    requires IsBatchText(key, a, b) && ParseUint(a).Some? && ParseUint(b).Some?
    ensures ParseBatchKey(key) == Some((ParseUint(a).value, ParseUint(b).value))
  {
    hide Split;
    var range := a + ['-'] + b;
    assert key == "batch" + [':'] + range;
    SplitFirst("batch", ':', range);
    SplitWhole(range, ':');
    assert [("batch")] + [range] == ["batch", range];
    SplitFirst(a, '-', b);
    SplitWhole(b, '-');
    assert [a] + [b] == [a, b];
  }

  lemma ParsedBatchText(key: string)
    requires ParseBatchKey(key).Some?
    ensures exists a: string, b: string :: IsBatchText(key, a, b) && ParseUint(a) == Some(ParseBatchKey(key).value.0)
                                          && ParseUint(b) == Some(ParseBatchKey(key).value.1)
  {
    hide Split, ParseUint;
    SplitJoins(key, ':');
    var rest := Split(key, ':')[1];
    SplitJoins(rest, '-');
    var range := Split(rest, '-');
    assert key == "batch" + ":" + (range[0] + "-" + range[1]);
    assert IsBatchText(key, range[0], range[1]);
  }

  /** A batch key is accepted if and only if it is the literal, a number, a dash and a number, and nothing else. */
  lemma ParsesBatchExactly(key: string, s: u64, e: u64)
    ensures ParseBatchKey(key) == Some((s, e)) <==>
            exists a: string, b: string :: IsBatchText(key, a, b) && ParseUint(a) == Some(s) && ParseUint(b) == Some(e)
  {
    hide ParseUint, ParseBatchKey, IsBatchText;
    if a: string, b: string :| IsBatchText(key, a, b) && ParseUint(a) == Some(s) && ParseUint(b) == Some(e) {
      BatchTextParses(key, a, b);
    }
    if ParseBatchKey(key) == Some((s, e)) {
      ParsedBatchText(key);
    }
  }

  predicate IsBatchText(key: string, a: string, b: string) {
    key == "batch:" + a + "-" + b
  }

  lemma {:induction false} DigitRunWhole(s: string, w: nat)
    requires |s| <= w && forall i :: 0 <= i < |s| ==> IsDigit(s[i])
    ensures DigitRun(s, w) == s
  {
    if s != "" {
      DigitRunWhole(s[1..], w - 1);
    }
  }

  /** parseBlockKey inverts blockKey on all of uint64. */
  lemma BlockKeyRoundTrip(n: u64)
    ensures ParseBlockKey(BlockKey(n)) == Some(n)
  {
    assert BlockKey(n)[6..] == Decimal20(n);
    Decimal20IsDigits(n);
    DigitRunWhole(Decimal20(n), 20);
    ParseDecimal20(n);
  }

  /** Byte order of block keys is numeric order, so iteration order is height order. */
  lemma BlockKeyOrder(m: u64, n: u64)
    ensures LexLess(BlockKey(m), BlockKey(n)) <==> m < n
    ensures BlockKey(m) == BlockKey(n) <==> m == n
  {
    LexCommonPrefix("block:", Decimal20(m), Decimal20(n));
    TwentyDigitsHoldU64();
    DigitsOrder(20, m, n);
    assert BlockKey(m)[6..] == Decimal20(m) && BlockKey(n)[6..] == Decimal20(n);
  }

  /** parseBatchKey recovers both bounds of every batch key. */
  lemma BatchKeyRoundTrip(start: u64, end: u64)
    ensures ParseBatchKey(BatchKey(start, end)) == Some((start, end))
  {
    var s, e := Decimal20(start), Decimal20(end);
    var tail := s + ['-'] + e;
    assert BatchKey(start, end) == "batch" + [':'] + tail;
    assert ':' !in tail && '-' !in s && '-' !in e by {
      Decimal20IsDigits(start);
      Decimal20IsDigits(end);
    }
    SplitFirst("batch", ':', tail);
    SplitWhole(tail, ':');
    SplitFirst(s, '-', e);
    SplitWhole(e, '-');
    ParseDecimal20(start);
    ParseDecimal20(end);
  }

  lemma BatchKeysDiffer(s: u64, e: u64, s': u64, e': u64)
    ensures BatchKey(s, e) == BatchKey(s', e') <==> s == s' && e == e'
  {
    hide ParseBatchKey, Decimal20;
    BatchKeyRoundTrip(s, e);
    BatchKeyRoundTrip(s', e');
  }

  /** Batch keys are ordered by their first block, whatever their last block is. */
  lemma BatchKeyOrder(s: u64, e: u64, s': u64, e': u64)
    ensures s < s' ==> LexLess(BatchKey(s, e), BatchKey(s', e'))
    ensures BatchKey(s, e) == BatchKey(s', e') <==> s == s' && e == e'
  {
    BatchKeysDiffer(s, e, s', e');
    if s < s' {
      TwentyDigitsHoldU64();
      DigitsOrder(20, s, s');
      var a, b := "batch:" + Decimal20(s), "batch:" + Decimal20(s');
      LexCommonPrefix("batch:", Decimal20(s), Decimal20(s'));
      LexTotal(a, b);
      var x, y := "-" + Decimal20(e), "-" + Decimal20(e');
      LexDecided(a, b, x, y);
      assert BatchKey(s, e) == a + x && BatchKey(s', e') == b + y;
    }
  }

  /** The three key families are disjoint, and no batch key or meta key lies between two block keys. */
  lemma FamiliesApart(n: u64, s: u64, e: u64)
    ensures BlockKey(n) != BatchKey(s, e) && BlockKey(n) != META_KEY && BatchKey(s, e) != META_KEY
    ensures LexLess(BatchKey(s, e), BlockKey(n)) && LexLess(BlockKey(n), META_KEY)
    ensures "block:" <= BlockKey(n) && !("batch:" <= BlockKey(n))
    ensures "batch:" <= BatchKey(s, e) && !("block:" <= BatchKey(s, e))
    ensures META_KEY == "meta" && !("block:" <= META_KEY) && !("batch:" <= META_KEY)
  {
    var k, b := BlockKey(n), BatchKey(s, e);
    assert k[0] == 'b' && k[1] == 'l' && b[0] == 'b' && b[1] == 'a' && META_KEY[0] == 'm';
    assert LexLess(b[1..], k[1..]);
    assert "block:"[1] == 'l' && "batch:"[1] == 'a' && "block:"[0] == 'b' && "batch:"[0] == 'b';
  }

  // ----- meta value -----

  function BigEndian(n: u64): (b: Bytes)
    ensures |b| == 8
  {
    var d := Digits(256, 8, n);
    seq(8, i requires 0 <= i < 8 => d[i] as byte)
  }

  function ReadBigEndian(b: Bytes): u64
    requires |b| >= 8
  {
    var d := seq(8, i requires 0 <= i < 8 => b[i] as nat);
    ValueBelow(256, d);
    EightBytesHoldU64();
    Value(256, d)
  }

  lemma BigEndianRoundTrip(n: u64)
    ensures ReadBigEndian(BigEndian(n)) == n
  {
    EightBytesHoldU64();
    ValueOfDigits(256, 8, n);
    var b := BigEndian(n);
    assert seq(8, i requires 0 <= i < 8 => b[i] as nat) == Digits(256, 8, n);
  }
}
