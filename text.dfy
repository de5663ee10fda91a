/** The handful of Python string and sequence builtins the query compiler
    leans on, written out so that their behaviour is explicit: `str.find` /
    `list.index`, the slice `s[:-1]`, the slice `xs[::2]`, `str.upper()`
    (on ASCII) and `str(n)` on an `int`. */
module Text {

  /** `xs.find(x)`: the position of the first occurrence of `x`, or -1.
      For a list of strings this is also `list.index(x)` when `x` is present. */
  function Find<T(==)>(xs: seq<T>, x: T): (i: int)
    ensures -1 <= i < |xs|
    ensures i == -1 <==> x !in xs
    ensures 0 <= i ==> xs[i] == x && x !in xs[..i]
  {
    if xs == [] then -1
    else if xs[0] == x then 0
    else
      var j := Find(xs[1..], x);
      if j == -1 then -1
      else
        assert xs[..j + 1] == [xs[0]] + xs[1..][..j];
        j + 1
  }

  /** Any position holding `x` is at or after the first occurrence. */
  lemma FindIsFirst<T>(xs: seq<T>, i: nat)
    requires i < |xs|
    ensures 0 <= Find(xs, xs[i]) <= i
  {
  }

  /** A position holding `x` with no `x` before it is what `Find` returns. */
  lemma FindAt<T>(xs: seq<T>, x: T, i: nat)
    requires i < |xs| && xs[i] == x && x !in xs[..i]
    ensures Find(xs, x) == i
  {
  }

  /** In a sequence without repeats every element is found where it stands. */
  lemma FindDistinct<T>(xs: seq<T>, i: nat)
    requires i < |xs|
    requires forall p, q :: 0 <= p < q < |xs| ==> xs[p] != xs[q]
    ensures Find(xs, xs[i]) == i
  {
    FindIsFirst(xs, i);
  }

  /** Python's `s[:-1]`: everything but the last element; empty stays empty. */
  function DropLast<T>(s: seq<T>): (r: seq<T>)
    ensures |s| > 0 ==> |r| == |s| - 1
    ensures r <= s
    ensures s == [] ==> r == []
  {
    if |s| == 0 then s else s[..|s| - 1]
  }

  /** Python's `xs[::2]`: the elements at even offsets. */
  function EveryOther<T>(xs: seq<T>): (r: seq<T>)
    ensures 2 * |r| - 1 <= |xs| <= 2 * |r|
    ensures forall k :: 0 <= k < |r| ==> r[k] == xs[2 * k]
  {
    if |xs| <= 1 then xs else [xs[0]] + EveryOther(xs[2..])
  }

  /** The items each followed by a comma, as a loop with `Value += f"{item},"`
      builds them. */
  function Trailing(items: seq<string>): string
  {
    if items == [] then "" else Trailing(items[..|items| - 1]) + items[|items| - 1] + ","
  }

  lemma TrailingSnoc(items: seq<string>, x: string)
    ensures Trailing(items + [x]) == Trailing(items) + x + ","
  {
    assert (items + [x])[..|items|] == items;
  }

  /** The items separated by commas: `",".join(items)`. */
  function Join(items: seq<string>): string
  {
    if items == [] then ""
    else if |items| == 1 then items[0]
    else items[0] + "," + Join(items[1..])
  }

  lemma {:induction false} JoinSnoc(items: seq<string>, x: string)
    requires items != []
    ensures Join(items + [x]) == Join(items) + "," + x
  {
    if |items| == 1 {
      assert items + [x] == [items[0], x];
      assert [x][1..] == [];
    } else {
      assert (items + [x])[1..] == items[1..] + [x];
      JoinSnoc(items[1..], x);
    }
  }

  /** Appending a comma after every item and then cutting the last character
      off gives exactly the comma-separated list. */
  lemma {:induction false} DropLastTrailing(items: seq<string>)
    ensures DropLast(Trailing(items)) == Join(items)
  {
    if items == [] {
    } else if |items| == 1 {
      assert items[..0] == [];
      assert Trailing(items) == items[0] + ",";
      assert DropLast(items[0] + ",") == items[0];
    } else {
      var init, last := items[..|items| - 1], items[|items| - 1];
      assert items == init + [last];
      DropLastTrailing(init);
      JoinSnoc(init, last);
      var t := Trailing(init);
      assert |t| > 0 && t[|t| - 1] == ',' by { TrailingEndsInComma(init); }
      assert t == DropLast(t) + ",";
      assert DropLast(Trailing(items)) == DropLast(t) + "," + last;
    }
  }

  lemma TrailingEndsInComma(items: seq<string>)
    requires items != []
    ensures |Trailing(items)| > 0 && Trailing(items)[|Trailing(items)| - 1] == ','
  {
  }

  /** Cuts a string at its commas; the inverse of `Join` on comma-free items. */
  function Split(s: string): (r: seq<string>)
    ensures |r| > 0
    decreases |s|
  {
    var i := Find(s, ',');
    if i == -1 then [s] else [s[..i]] + Split(s[i + 1..])
  }

  /** A non-empty list of comma-free items is recovered from its joined form. */
  lemma {:induction false} SplitJoin(items: seq<string>)
    requires items != []
    requires forall k :: 0 <= k < |items| ==> ',' !in items[k]
    ensures Split(Join(items)) == items
  {
    if |items| == 1 {
    } else {
      var head := items[0];
      var rest := Join(items[1..]);
      var s := head + "," + rest;
      assert s[..|head|] == head && s[|head|] == ',';
      var i := Find(s, ',');
      assert i == |head|;
      assert s[i + 1..] == rest;
      SplitJoin(items[1..]);
    }
  }

  /** `str.upper()` on one character, for the ASCII letters. */
  function UpperChar(c: char): char
  {
    if 'a' <= c <= 'z' then (c as int - 'a' as int + 'A' as int) as char else c
  }

  predicate IsLowerAscii(c: char)
  {
    'a' <= c <= 'z'
  }

  /** `str.upper()` on ASCII text: same length, letter case raised character by
      character, and no lower-case letter left. */
  function Upper(s: string): (r: string)
    ensures |r| == |s|
    ensures forall i :: 0 <= i < |s| ==> r[i] == UpperChar(s[i])
    ensures forall i :: 0 <= i < |r| ==> !IsLowerAscii(r[i])
  {
    if s == [] then [] else [UpperChar(s[0])] + Upper(s[1..])
  }

  /** Upper-casing twice is upper-casing once; text with no lower-case letter
      is left alone. */
  lemma UpperIdempotent(s: string)
    ensures Upper(Upper(s)) == Upper(s)
    ensures (forall i :: 0 <= i < |s| ==> !IsLowerAscii(s[i])) ==> Upper(s) == s
  {
  }

  predicate IsDigit(c: char)
  {
    '0' <= c <= '9'
  }

  function DigitChar(d: nat): (c: char)
    requires d < 10
    ensures IsDigit(c)
  {
    ('0' as int + d) as char
  }

  function DigitValue(c: char): (d: nat)
    requires IsDigit(c)
    ensures d < 10 && DigitChar(d) == c
  {
    c as int - '0' as int
  }

  /** `str(n)` for a natural number: its shortest decimal numeral. */
  function NatToString(n: nat): (r: string)
    ensures |r| > 0
    ensures forall i :: 0 <= i < |r| ==> IsDigit(r[i])
    ensures r[0] == '0' ==> n == 0
  {
    if n < 10 then [DigitChar(n)] else NatToString(n / 10) + [DigitChar(n % 10)]
  }

  /** `str(n)` for a Python `int`: a minus sign before the numeral of `-n`
      when `n` is negative. */
  function IntToString(n: int): (r: string)
    ensures |r| > 0
    ensures (r[0] == '-') <==> n < 0
  {
    if n < 0 then "-" + NatToString(-n) else NatToString(n)
  }

  /** Reads a string of decimal digits back as a number. */
  function ParseNat(s: string): nat
    requires forall i :: 0 <= i < |s| ==> IsDigit(s[i])
  {
    if s == [] then 0 else ParseNat(s[..|s| - 1]) * 10 + DigitValue(s[|s| - 1])
  }

  /** Reads an optionally signed decimal numeral back as an integer. */
  function ParseInt(s: string): int
    requires |s| > 0
    requires forall i :: (if s[0] == '-' then 1 else 0) <= i < |s| ==> IsDigit(s[i])
  {
    if s[0] == '-' then -(ParseNat(s[1..]) as int) else ParseNat(s)
  }

  lemma {:induction false} ParseNatToString(n: nat)
    ensures ParseNat(NatToString(n)) == n
  {
    if n >= 10 {
      var s := NatToString(n / 10);
      assert (s + [DigitChar(n % 10)])[..|s|] == s;
      ParseNatToString(n / 10);
    }
  }

  /** `str(n)` loses nothing: the numeral reads back as `n`. */
  lemma IntToStringRoundTrip(n: int)
    ensures forall i :: (if IntToString(n)[0] == '-' then 1 else 0) <= i < |IntToString(n)| ==> IsDigit(IntToString(n)[i])
    ensures ParseInt(IntToString(n)) == n
  {
    if n < 0 {
      assert ("-" + NatToString(-n))[1..] == NatToString(-n);
      ParseNatToString(-n);
    } else {
      ParseNatToString(n);
    }
  }
}
