/** The parts of Go's `strings` and `strconv` packages that the modelled code calls.
    A Go string is a sequence of bytes; here every `char` stands for one byte. */
module Strings {
  import opened Wrappers

  const SEP: char := ','

  // ---------- strings.Split and strings.Join with the separator "," ----------

  function Split(s: string): (parts: seq<string>)
    ensures |parts| >= 1
    ensures forall p | p in parts :: SEP !in p
  {
    if s == "" then [""]
    else if s[0] == SEP then [""] + Split(s[1..])
    else PutFront(s[0], Split(s[1..]))
  }

  /** The parts with one more character at the front of the first of them. */
  function PutFront(c: char, parts: seq<string>): (longer: seq<string>)
    requires |parts| >= 1
  {
    [[c] + parts[0]] + parts[1..]
  }

  function Join(parts: seq<string>): string {
    if |parts| == 0 then ""
    else if |parts| == 1 then parts[0]
    else parts[0] + ([SEP] + Join(parts[1..]))
  }

  lemma Associative(a: string, b: string, c: string)
    ensures (a + b) + c == a + (b + c)
  {
  }

  lemma PutFrontAppend(c: char, parts: seq<string>, more: seq<string>)
    requires |parts| >= 1
    ensures PutFront(c, parts + more) == PutFront(c, parts) + more
  {
    assert (parts + more)[1..] == parts[1..] + more;
  }

  /** Splitting around one separator splits the two sides independently. */
  lemma {:induction false} SplitAround(a: string, b: string)
    ensures Split(a + [SEP] + b) == Split(a) + Split(b)
  {
    var s := a + [SEP] + b;
    if a == "" {
      assert s[1..] == b;
    } else {
      assert s[1..] == a[1..] + [SEP] + b;
      SplitAround(a[1..], b);
      if a[0] != SEP {
        PutFrontAppend(a[0], Split(a[1..]), Split(b));
      }
    }
  }

  lemma {:induction false} SplitOne(p: string)
    requires SEP !in p
    ensures Split(p) == [p]
  {
    if p != "" {
      SplitOne(p[1..]);
      assert [p[0]] + p[1..] == p;
    }
  }

  /** Joining comma-free parts and splitting again gives the parts back. */
  lemma {:induction false} SplitJoin(parts: seq<string>)
    requires parts != []
    requires forall p | p in parts :: SEP !in p
    ensures Split(Join(parts)) == parts
  {
    SplitOne(parts[0]);
    if |parts| > 1 {
      SplitJoin(parts[1..]);
      SplitAround(parts[0], Join(parts[1..]));
      Associative(parts[0], [SEP], Join(parts[1..]));
      assert [parts[0]] + parts[1..] == parts;
    } else {
      assert parts == [parts[0]];
    }
  }

  lemma JoinPutFront(c: char, parts: seq<string>)
    requires |parts| >= 1
    ensures Join(PutFront(c, parts)) == [c] + Join(parts)
  {
    var longer := PutFront(c, parts);
    assert longer[0] == [c] + parts[0] && longer[1..] == parts[1..];
    if |parts| > 1 {
      Associative([c], parts[0], [SEP] + Join(parts[1..]));
    }
  }

  lemma {:induction false} JoinSplit(s: string)
    ensures Join(Split(s)) == s
  {
    if s != "" {
      JoinSplit(s[1..]);
      assert s == [s[0]] + s[1..];
      if s[0] == SEP {
        assert Split(s)[1..] == Split(s[1..]);
      } else {
        JoinPutFront(s[0], Split(s[1..]));
      }
    }
  }

  lemma {:induction false} JoinSnoc(parts: seq<string>, last: string)
    requires parts != []
    ensures Join(parts + [last]) == Join(parts) + [SEP] + last
  {
    if |parts| == 1 {
      assert (parts + [last])[1..] == [last];
    } else {
      JoinSnoc(parts[1..], last);
      assert (parts + [last])[1..] == parts[1..] + [last];
    }
  }

  /** What a reader of the joined string finds after one more value was appended:
      the old parts and the parts of the new value, even if that value has commas. */
  lemma SplitJoinSnoc(parts: seq<string>, last: string)
    requires forall p | p in parts :: SEP !in p
    ensures Split(Join(parts + [last])) == parts + Split(last)
  {
    if parts == [] {
      assert parts + [last] == [last];
      assert [] + Split(last) == Split(last);
    } else {
      JoinSnoc(parts, last);
      SplitAround(Join(parts), last);
      SplitJoin(parts);
    }
  }

  // ---------- strings.Contains ----------

  predicate OccursAt(s: string, t: string, i: nat) {
    i + |t| <= |s| && forall j | 0 <= j < |t| :: s[i + j] == t[j]
  }

  predicate Contains(s: string, t: string) {
    exists i | 0 <= i <= |s| :: OccursAt(s, t, i)
  }

  lemma OccursShifted(before: string, s: string, after: string, t: string, i: nat)
    requires OccursAt(s, t, i)
    ensures Contains(before + s + after, t)
  {
    assert OccursAt(before + s + after, t, |before| + i);
  }

  lemma OccurrenceChar(s: string, t: string, i: nat, j: nat)
    requires OccursAt(s, t, i) && j < |t|
    ensures s[i + j] in t
  {
    assert s[i + j] == t[j];
  }

  /** A comma-free text cannot straddle a separator. */
  lemma ContainsAround(a: string, b: string, t: string)
    requires SEP !in t
    ensures Contains(a + [SEP] + b, t) <==> Contains(a, t) || Contains(b, t)
  {
    var s := a + [SEP] + b;
    if Contains(s, t) {
      var i :| 0 <= i <= |s| && OccursAt(s, t, i);
      if i + |t| <= |a| {
        assert OccursAt(a, t, i);
      } else {
        if i <= |a| {
          OccurrenceChar(s, t, i, |a| - i);
        }
        assert OccursAt(b, t, i - |a| - 1);
      }
    }
    if Contains(a, t) {
      var i :| 0 <= i <= |a| && OccursAt(a, t, i);
      OccursShifted("", a, [SEP] + b, t, i);
      assert s == "" + a + ([SEP] + b);
    }
    if Contains(b, t) {
      var i :| 0 <= i <= |b| && OccursAt(b, t, i);
      OccursShifted(a + [SEP], b, "", t, i);
      assert s == a + [SEP] + b + "";
    }
  }

  /** Substring search in a joined list finds a comma-free text exactly when
      some part contains it. */
  lemma {:induction false} ContainsJoin(parts: seq<string>, t: string)
    requires parts != []
    requires SEP !in t
    ensures Contains(Join(parts), t) <==> exists p | p in parts :: Contains(p, t)
  {
    if |parts| == 1 {
      assert parts[0] in parts;
    } else {
      ContainsJoin(parts[1..], t);
      ContainsAround(parts[0], Join(parts[1..]), t);
      Associative(parts[0], [SEP], Join(parts[1..]));
      assert parts == [parts[0]] + parts[1..];
    }
  }

  lemma ContainsSameLength(s: string, t: string)
    requires |s| == |t|
    ensures Contains(s, t) <==> s == t
  {
    assert OccursAt(s, t, 0) <==> s == t;
  }

  // ---------- decimal numbers ----------

  function DigitChar(d: nat): (c: char)
    requires d < 10
    ensures '0' <= c <= '9'
  {
    '0' + d as char
  }

  predicate IsDigit(c: char) { '0' <= c <= '9' }

  function DigitValue(c: char): (d: nat)
    requires IsDigit(c)
    ensures d < 10
  {
    c as int - '0' as int
  }

  /** strconv.FormatInt(n, 10) for n >= 0. */
  function FormatNat(n: nat): (s: string)
    ensures |s| >= 1
    ensures forall c | c in s :: IsDigit(c)
  {
    if n < 10 then [DigitChar(n)] else FormatNat(n / 10) + [DigitChar(n % 10)]
  }

  /** strconv.FormatInt(n, 10). */
  function FormatInt(n: int): string {
    if n < 0 then "-" + FormatNat(-n) else FormatNat(n)
  }

  /** The value of a non-empty run of decimal digits. */
  function ParseNat(s: string): Option<nat> {
    if |s| == 0 || !IsDigit(s[|s| - 1]) then None
    else
      var d := DigitValue(s[|s| - 1]);
      if |s| == 1 then Some(d)
      else
        match ParseNat(s[..|s| - 1])
        case None => None
        case Some(v) => Some(10 * v + d)
  }

  /** strconv.ParseInt(s, 10, 64) on texts short enough not to overflow int64:
      an optional sign and at least one digit. */
  function ParseInt(s: string): Option<int> {
    if |s| > 0 && s[0] == '-' then Signed(-1, ParseNat(s[1..]))
    else if |s| > 0 && s[0] == '+' then Signed(1, ParseNat(s[1..]))
    else Signed(1, ParseNat(s))
  }

  function Signed(sign: int, n: Option<nat>): Option<int> {
    if n.None? then None else Some(sign * n.value)
  }

  lemma {:induction false} ParseFormat(n: nat)
    ensures ParseNat(FormatNat(n)) == Some(n)
  {
    if n >= 10 {
      ParseFormat(n / 10);
      var s := FormatNat(n);
      assert s[..|s| - 1] == FormatNat(n / 10);
    }
  }

  /** Reading a printed number gives the number back. */
  lemma ParseIntFormat(n: int)
    ensures ParseInt(FormatInt(n)) == Some(n)
  {
    var s := FormatInt(n);
    if n < 0 {
      assert s[1..] == FormatNat(-n);
      ParseFormat(-n);
    } else {
      assert s[0] in s;
      ParseFormat(n);
    }
  }

  function Pow10(k: nat): (p: nat)
    ensures p >= 1
  {
    if k == 0 then 1 else 10 * Pow10(k - 1)
  }

  /** n has at least k digits exactly when it is at least 10^(k-1). */
  lemma {:induction false} DigitCount(n: nat, k: nat)
    requires k >= 1
    ensures |FormatNat(n)| >= k <==> k == 1 || n >= Pow10(k - 1)
  {
    if k > 1 && n >= 10 {
      DigitCount(n / 10, k - 1);
    }
  }

  lemma ModSplit(n: nat, p: nat)
    requires p >= 1
    ensures 10 * ((n / 10) % p) + n % 10 == n % (10 * p)
  {
    var a, b := n / 10, n % 10;
    var q, r := a / p, a % p;
    assert a == p * q + r;
    calc {
      n;
      10 * a + b;
      10 * (p * q + r) + b;
      10 * (p * q) + (10 * r + b);
      { assert 10 * (p * q) == (10 * p) * q; }
      (10 * p) * q + (10 * r + b);
    }
    ModUnique(n, 10 * p, q, 10 * r + b);
  }

  lemma ModUnique(n: int, m: int, q: int, r: int)
    requires m > 0 && n == m * q + r && 0 <= r < m
    ensures n % m == r
  {
    var q', r' := n / m, n % m;
    assert n == m * q' + r';
    assert m * (q - q') == r' - r;
    assert q - q' >= 1 ==> m * (q - q') >= m;
    assert q - q' <= -1 ==> m * (q - q') <= -m;
  }

  function Suffix(s: string, k: nat): string
    requires k <= |s|
  {
    s[|s| - k..]
  }

  lemma SuffixSnoc(s: string, c: char, k: nat)
    requires 1 <= k <= |s| + 1
    ensures Suffix(s + [c], k) == Suffix(s, k - 1) + [c]
  {
  }

  /** Reads as n modulo p. */
  predicate ReadsMod(s: string, n: nat, p: nat)
    requires p >= 1
  {
    ParseNat(s) == Some(n % p)
  }

  /** The last k digits of n, read as a number, are n modulo 10^k. */
  lemma {:induction false} LastDigits(n: nat, k: nat)
    requires 1 <= k <= |FormatNat(n)|
    ensures ReadsMod(Suffix(FormatNat(n), k), n, Pow10(k))
  {
    if k == 1 {
      LastDigit(n);
    } else {
      LastDigits(n / 10, k - 1);
      SuffixSnoc(FormatNat(n / 10), DigitChar(n % 10), k);
      OneMoreDigit(Suffix(FormatNat(n / 10), k - 1), n, Pow10(k - 1));
    }
  }

  lemma LastDigit(n: nat)
    ensures ReadsMod(Suffix(FormatNat(n), 1), n, Pow10(1))
  {
    var s := FormatNat(n);
    assert s[|s| - 1] == DigitChar(n % 10);
    assert Suffix(s, 1) == [DigitChar(n % 10)];
    OneDigit(n);
  }

  lemma OneDigit(n: nat)
    ensures ReadsMod([DigitChar(n % 10)], n, Pow10(1))
  {
    assert Pow10(1) == 10 * Pow10(0);
  }

  lemma OneMoreDigit(s: string, n: nat, p: nat)
    requires p >= 1 && ReadsMod(s, n / 10, p)
    ensures ReadsMod(s + [DigitChar(n % 10)], n, 10 * p)
  {
    var longer := s + [DigitChar(n % 10)];
    assert longer[..|longer| - 1] == s;
    ParseStep(longer, (n / 10) % p);
    ModSplit(n, p);
  }

  lemma ParseStep(s: string, v: nat)
    requires |s| > 1 && IsDigit(s[|s| - 1])
    requires ParseNat(s[..|s| - 1]) == Some(v)
    ensures ParseNat(s) == Some(10 * v + DigitValue(s[|s| - 1]))
  {
  }
}
