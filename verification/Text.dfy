/**
 The text forms the services put into documents and specs: Go's decimal formatting and parsing,
 the splitting of a string at a separator, and the key of a status list.
 */
module Text {
  import opened Wrappers

  // Go's int on the 64-bit platforms the service targets.
  const MIN_INT := -0x8000_0000_0000_0000
  const MAX_INT := 0x7FFF_FFFF_FFFF_FFFF

  // ---- Decimal numbers ----

  function DigitChar(d: int): (c: char)
    requires 0 <= d < 10
    ensures '0' <= c <= '9' && DigitOf(c) == d
  {
    '0' + d as char
  }

  function DigitOf(c: char): int {
    c as int - '0' as int
  }

  predicate IsDigit(c: char) {
    '0' <= c <= '9'
  }

  function Digits(n: nat): (s: string)
    ensures s != [] && forall i :: 0 <= i < |s| ==> IsDigit(s[i])
  {
    if n < 10 then [DigitChar(n)] else Digits(n / 10) + [DigitChar(n % 10)]
  }

  function Itoa(n: int): string {
    if n < 0 then "-" + Digits(-n) else Digits(n)
  }

  function DigitsValue(s: string): Option<nat> {
    if s == [] then Some(0)
    else
      var init := DigitsValue(s[..|s| - 1]);
      var last := s[|s| - 1];
      if init.Some? && IsDigit(last) then Some(10 * init.value + DigitOf(last)) else None
  }

  // strconv.Atoi: an optional sign, at least one digit, and a value that fits an int.
  function Atoi(s: string): Option<int> {
    var negative := s != [] && s[0] == '-';
    var digits := if s != [] && (s[0] == '-' || s[0] == '+') then s[1..] else s;
    var magnitude := DigitsValue(digits);
    if digits == [] || magnitude.None? then None
    else
      var n: int := if negative then -(magnitude.value as int) else magnitude.value as int;
      if MIN_INT <= n <= MAX_INT then Some(n) else None
  }

  // The digits are decimal, most significant first, without zeros in front.
  lemma DigitsAreDecimal(n: nat, d: nat)
    requires d < 10
    ensures Digits(d) == [('0' as int + d) as char]
    ensures n > 0 ==> Digits(10 * n + d) == Digits(n) + Digits(d)
  {
  }

  lemma {:induction false} DigitsRoundTrip(n: nat)
    ensures DigitsValue(Digits(n)) == Some(n)
  {
    if n < 10 {
      assert [DigitChar(n)][..0] == [];
    } else {
      DigitsRoundTrip(n / 10);
      assert Digits(n)[..|Digits(n)| - 1] == Digits(n / 10);
    }
  }

  lemma AtoiOfItoa(n: int)
    requires MIN_INT <= n <= MAX_INT
    ensures Atoi(Itoa(n)) == Some(n)
  {
    var m: nat := if n < 0 then -n else n;
    DigitsRoundTrip(m);
    NumberIsRead(Digits(m), m);
  }

  function Zeros(k: nat): (s: string)
    ensures |s| == k && forall i :: 0 <= i < k ==> s[i] == '0'
  {
    seq(k, _ => '0')
  }

  lemma {:induction false} PaddedValue(k: nat, n: nat)
    ensures DigitsValue(Zeros(k) + Digits(n)) == Some(n)
    decreases k + n
  {
    var s := Zeros(k) + Digits(n);
    if n >= 10 {
      PaddedValue(k, n / 10);
      assert s[..|s| - 1] == Zeros(k) + Digits(n / 10);
    } else if k == 0 {
      assert s[..|s| - 1] == [];
    } else {
      PaddedValue(k - 1, 0);
      assert s[..|s| - 1] == Zeros(k - 1) + Digits(0);
    }
  }

  lemma {:induction false} ValueIsPadded(s: string) returns (k: nat)
    requires s != [] && DigitsValue(s).Some?
    ensures s == Zeros(k) + Digits(DigitsValue(s).value)
  {
    var init, last := s[..|s| - 1], s[|s| - 1];
    assert s == init + [last];
    if init == [] {
      k := 0;
      assert s == Digits(DigitOf(last));
    } else {
      k := ValueIsPadded(init);
      if DigitsValue(init).value == 0 {
        k := k + 1;
        assert s == Zeros(k) + Digits(DigitOf(last));
      }
    }
  }

  // A decimal number with k zeros in front and perhaps a sign before them.
  predicate Spells(s: string, n: int, k: nat) {
    var digits := Zeros(k) + Digits(if n < 0 then -n else n);
    (n <= 0 && s == "-" + digits) || (n >= 0 && (s == digits || s == "+" + digits))
  }

  // Atoi reads exactly those, as far as they fit an int.
  lemma AtoiIff(s: string, n: int)
    ensures Atoi(s) == Some(n) <==> MIN_INT <= n <= MAX_INT && exists k: nat :: Spells(s, n, k)
  {
    if Atoi(s) == Some(n) {
      var signed := s[0] == '-' || s[0] == '+';
      var digits := if signed then s[1..] else s;
      assert signed ==> s == [s[0]] + digits;
      var k := ValueIsPadded(digits);
      assert Spells(s, n, k);
    }
    if MIN_INT <= n <= MAX_INT && exists k: nat :: Spells(s, n, k) {
      var k: nat :| Spells(s, n, k);
      SpelledIsRead(s, n, k);
    }
  }

  lemma PaddedIsNumber(k: nat, n: nat)
    ensures var digits := Zeros(k) + Digits(n);
            digits != [] && IsDigit(digits[0]) && DigitsValue(digits) == Some(n)
  {
    PaddedValue(k, n);
    assert k > 0 ==> (Zeros(k) + Digits(n))[0] == Zeros(k)[0];
  }

  lemma NumberIsRead(digits: string, m: nat)
    requires digits != [] && IsDigit(digits[0]) && DigitsValue(digits) == Some(m)
    ensures m <= MAX_INT ==> Atoi(digits) == Some(m) && Atoi("+" + digits) == Some(m)
    ensures MIN_INT <= 0 - m ==> Atoi("-" + digits) == Some(0 - m)
  {
    assert ("+" + digits)[1..] == digits && ("-" + digits)[1..] == digits;
  }

  lemma SpelledIsRead(s: string, n: int, k: nat)
    requires MIN_INT <= n <= MAX_INT && Spells(s, n, k)
    ensures Atoi(s) == Some(n)
  {
    var m: nat := if n < 0 then -n else n;
    PaddedIsNumber(k, m);
    NumberIsRead(Zeros(k) + Digits(m), m);
    assert "-" + Zeros(k) + Digits(m) == "-" + (Zeros(k) + Digits(m));
  }

  lemma DigitsInjective(m: nat, n: nat)
    requires Digits(m) == Digits(n)
    ensures m == n
  {
    DigitsRoundTrip(m);
    DigitsRoundTrip(n);
  }

  lemma ItoaSign(n: int)
    ensures Itoa(n)[0] == '-' <==> n < 0
    ensures Itoa(n) == if n < 0 then ['-'] + Digits(-n) else Digits(n)
  {
  }

  lemma ItoaInjective(m: int, n: int)
    requires Itoa(m) == Itoa(n)
    ensures m == n
  {
    ItoaSign(m);
    ItoaSign(n);
    if m < 0 {
      assert (['-'] + Digits(-m))[1..] == Digits(-m) && (['-'] + Digits(-n))[1..] == Digits(-n);
      DigitsInjective(-m, -n);
    } else {
      DigitsInjective(m, n);
    }
  }

  // ---- Keys of status lists ----

  const LATEST_LIST_ID_KEY := "LatestListID"

  function ListKey(url: string, id: int): string {
    url + "/" + Itoa(id)
  }

  lemma LastSlash(url: string, rest: string)
    requires '/' !in rest
    ensures (url + "/" + rest)[|url|] == '/'
    ensures forall i :: |url| < i < |url| + 1 + |rest| ==> (url + "/" + rest)[i] != '/'
  {
    var s := url + "/" + rest;
    assert forall i :: |url| < i < |s| ==> s[i] == rest[i - |url| - 1];
  }

  // A list's key determines both the URL and the number of the list.
  lemma ListKeyInjective(url1: string, id1: int, url2: string, id2: int)
    requires ListKey(url1, id1) == ListKey(url2, id2)
    ensures url1 == url2 && id1 == id2
  {
    var d1, d2 := Itoa(id1), Itoa(id2);
    var k := ListKey(url1, id1);
    LastSlash(url1, d1);
    LastSlash(url2, d2);
    assert |url1| == |url2|;
    assert k[..|url1|] == url1 && k[..|url2|] == url2;
    assert k[|url1| + 1..] == d1 && k[|url2| + 1..] == d2;
    ItoaInjective(id1, id2);
  }

  // No list ever shares its document with the latest-list counter.
  lemma ListKeyIsNotCounterKey(url: string, id: int)
    ensures ListKey(url, id) != LATEST_LIST_ID_KEY
  {
    assert ListKey(url, id)[|url|] == '/';
    assert forall i :: 0 <= i < |LATEST_LIST_ID_KEY| ==> LATEST_LIST_ID_KEY[i] != '/';
  }

  // ---- Splitting ----

  // strings.Split for a one-character separator: never empty, the parts hold no separator.
  function Split(s: string, sep: char): (parts: seq<string>)
    ensures parts != []
    ensures forall p :: p in parts ==> sep !in p
  {
    if s == [] then [""]
    else if s[0] == sep then [""] + Split(s[1..], sep)
    else
      var rest := Split(s[1..], sep);
      [[s[0]] + rest[0]] + rest[1..]
  }

  function Join(parts: seq<string>, sep: char): string
    requires parts != []
  {
    if |parts| == 1 then parts[0] else parts[0] + [sep] + Join(parts[1..], sep)
  }

  lemma {:induction false} JoinOfSplit(s: string, sep: char)
    ensures Join(Split(s, sep), sep) == s
  {
    if s != [] {
      JoinOfSplit(s[1..], sep);
      var rest := Split(s[1..], sep);
      if s[0] == sep {
        assert Split(s, sep)[1..] == rest;
        assert s == [sep] + s[1..];
      } else {
        assert Split(s, sep)[1..] == rest[1..];
        assert s == [s[0]] + s[1..];
      }
    }
  }

  // Splitting off a separator-free head.
  lemma {:induction false} SplitHead(head: string, tail: string, sep: char)
    requires sep !in head
    ensures Split(head + [sep] + tail, sep) == [head] + Split(tail, sep)
    decreases head
  {
    var s := head + [sep] + tail;
    if head == [] {
      assert s[1..] == tail;
    } else {
      assert s[1..] == head[1..] + [sep] + tail;
      SplitHead(head[1..], tail, sep);
      assert head == [head[0]] + head[1..];
    }
  }

  lemma {:induction false} SplitAtom(s: string, sep: char)
    requires sep !in s
    ensures Split(s, sep) == [s]
  {
    if s != [] {
      SplitAtom(s[1..], sep);
      assert s == [s[0]] + s[1..];
    }
  }

  lemma {:induction false} SplitOfJoin(parts: seq<string>, sep: char)
    requires parts != [] && forall p :: p in parts ==> sep !in p
    ensures Split(Join(parts, sep), sep) == parts
  {
    if |parts| == 1 {
      SplitAtom(parts[0], sep);
    } else {
      SplitOfJoin(parts[1..], sep);
      SplitHead(parts[0], Join(parts[1..], sep), sep);
    }
  }
}
