/** String helpers standing for the JavaScript built-ins the formatter uses:
    `" ".repeat(n)`, `Array.prototype.join`, `padEnd` and the decimal
    rendering of a number in a template literal. `Split` is not one of them:
    it is the reading side of `Join`, used to state what a joined text holds
    (its lines, its items). */
module Strings {

  datatype Option<+T> = None | Some(value: T)

  /** `" ".repeat(n)` */
  function Spaces(n: nat): (r: string)
    ensures |r| == n
    ensures forall k :: 0 <= k < n ==> r[k] == ' '
  {
    if n == 0 then "" else " " + Spaces(n - 1)
  }

  /** `parts.join(sep)` */
  function Join(parts: seq<string>, sep: string): (r: string)
    ensures sep == "" ==> r == Concat(parts)
  {
    if |parts| == 0 then ""
    else if |parts| == 1 then
      assert Concat(parts) == parts[0] + Concat(parts[1..]) == parts[0];
      parts[0]
    else parts[0] + sep + Join(parts[1..], sep)
  }

  /** `parts.join("")`, and flattening in general. */
  function Concat<T>(parts: seq<seq<T>>): seq<T>
  {
    if |parts| == 0 then [] else parts[0] + Concat(parts[1..])
  }

  /** `j * w`, counted out one part of width `w` at a time. */
  function Offset(j: nat, w: nat): nat
  {
    if j == 0 then 0 else Offset(j - 1, w) + w
  }

  lemma {:induction false} OffsetIsProduct(j: nat, w: nat)
    ensures Offset(j, w) == j * w
  {
    if j > 0 {
      OffsetIsProduct(j - 1, w);
      MulSucc(j - 1, w);
    }
  }

  lemma MulSucc(j: nat, w: nat)
    ensures (j + 1) * w == j * w + w
  {
  }

  /** Part `j` ends no later than part `n` begins, for `j < n`. */
  lemma {:induction false} OffsetMonotone(j: nat, n: nat, w: nat)
    requires j < n
    ensures Offset(j, w) + w <= Offset(n, w)
  {
    if j + 1 < n {
      OffsetMonotone(j, n - 1, w);
    }
  }

  lemma {:induction false} ConcatLength<T>(parts: seq<seq<T>>, width: nat)
    requires forall k :: 0 <= k < |parts| ==> |parts[k]| == width
    ensures |Concat(parts)| == Offset(|parts|, width)
  {
    if |parts| > 0 {
      ConcatLength(parts[1..], width);
    }
  }

  /** Adjacent slices make up the longer prefix. */
  lemma ConsPair<T>(a: T, b: T)
    ensures [a] + [b] == [a, b]
  {
  }

  lemma ConsTriple<T>(a: T, b: T, c: T)
    ensures [a] + [b, c] == [a, b, c]
  {
  }

  lemma PrefixSlices<T>(s: seq<T>, a: nat, b: nat)
    requires a <= b <= |s|
    ensures s[..a] + s[a..b] == s[..b]
  {
  }

  /** Every element of every part is in the flattening. */
  lemma {:induction false} ConcatMember<T>(parts: seq<seq<T>>, n: nat, j: nat)
    requires n < |parts| && j < |parts[n]|
    ensures parts[n][j] in Concat(parts)
  {
    if n > 0 {
      ConcatMember(parts[1..], n - 1, j);
    }
  }

  lemma {:induction false} ConcatAppend<T>(parts: seq<seq<T>>, last: seq<T>)
    ensures Concat(parts + [last]) == Concat(parts) + last
  {
    if |parts| == 0 {
      assert parts + [last] == [last];
    } else {
      assert (parts + [last])[1..] == parts[1..] + [last];
      ConcatAppend(parts[1..], last);
    }
  }

  /** In a concatenation of equally wide parts, part `j` sits at
      `Offset(j, width)`. */
  lemma {:induction false} ConcatSlice<T>(parts: seq<seq<T>>, width: nat, j: nat)
    requires j < |parts|
    requires forall k :: 0 <= k < |parts| ==> |parts[k]| == width
    ensures |Concat(parts)| == Offset(|parts|, width)
    ensures Offset(j, width) + width <= |Concat(parts)|
    ensures Concat(parts)[Offset(j, width)..Offset(j, width) + width] == parts[j]
  {
    ConcatLength(parts, width);
    OffsetMonotone(j, |parts|, width);
    if j > 0 {
      ConcatSlice(parts[1..], width, j - 1);
      var rest := Concat(parts[1..]);
      var a := Offset(j - 1, width);
      assert Concat(parts) == parts[0] + rest;
      assert (parts[0] + rest)[width + a..width + a + width] == rest[a..a + width];
    }
  }

  lemma {:induction false} ConcatNoChar(parts: seq<string>, c: char)
    requires forall k :: 0 <= k < |parts| ==> c !in parts[k]
    ensures c !in Concat(parts)
  {
    if |parts| > 0 {
      ConcatNoChar(parts[1..], c);
    }
  }

  /** The pieces of `s` between occurrences of `c`, as `s.split(c)` would
      give them: the inverse of joining with `c`. */
  function Split(s: string, c: char): (r: seq<string>)
    ensures |r| > 0
  {
    if |s| == 0 then [""]
    else
      var rest := Split(s[1..], c);
      if s[0] == c then [""] + rest else [[s[0]] + rest[0]] + rest[1..]
  }

  lemma {:induction false} SplitNoSeparator(p: string, c: char)
    requires c !in p
    ensures Split(p, c) == [p]
  {
    if |p| > 0 {
      assert c !in p[1..];
      SplitNoSeparator(p[1..], c);
      assert [p[0]] + p[1..] == p;
    }
  }

  lemma {:induction false} SplitFirst(p: string, c: char, t: string)
    requires c !in p
    ensures Split(p + [c] + t, c) == [p] + Split(t, c)
  {
    if |p| == 0 {
      assert p + [c] + t == [c] + t;
      assert ([c] + t)[1..] == t;
    } else {
      var s := p + [c] + t;
      assert s[0] == p[0] && s[1..] == p[1..] + [c] + t;
      assert c !in p[1..];
      SplitFirst(p[1..], c, t);
      assert [p[0]] + p[1..] == p;
    }
  }

  /** Splitting a join on a separator that no part contains gives the parts back. */
  lemma {:induction false} SplitJoin(parts: seq<string>, c: char)
    requires |parts| > 0
    requires forall k :: 0 <= k < |parts| ==> c !in parts[k]
    ensures Split(Join(parts, [c]), c) == parts
  {
    if |parts| == 1 {
      SplitNoSeparator(parts[0], c);
    } else {
      SplitJoin(parts[1..], c);
      SplitFirst(parts[0], c, Join(parts[1..], [c]));
      assert [parts[0]] + parts[1..] == parts;
    }
  }

  /** Every part with `pad` in front of it. */
  function PadAll(parts: seq<string>, pad: string): (r: seq<string>)
    ensures |r| == |parts|
    ensures forall k :: 0 <= k < |parts| ==> r[k] == pad + parts[k]
  {
    seq(|parts|, k requires 0 <= k < |parts| => pad + parts[k])
  }

  lemma {:induction false} JoinPadded(parts: seq<string>, c: char, pad: string)
    requires |parts| > 0
    ensures pad + Join(parts, [c] + pad) == Join(PadAll(parts, pad), [c])
  {
    var padded := PadAll(parts, pad);
    if |parts| > 1 {
      JoinPadded(parts[1..], c, pad);
      assert padded[1..] == PadAll(parts[1..], pad);
      assert Join(padded, [c]) == padded[0] + [c] + Join(padded[1..], [c]);
    } else {
      assert Join(padded, [c]) == padded[0];
    }
  }

  /** `SplitPrefixed`, line by line. */
  lemma SplitPrefixedLines(parts: seq<string>, c: char, pad: string)
    requires |parts| > 0 && c !in pad
    requires forall k :: 0 <= k < |parts| ==> c !in parts[k]
    ensures var lines := Split(Join(parts, [c] + pad), c);
      && |lines| == |parts|
      && lines[0] == parts[0]
      && forall k :: 0 < k < |parts| ==> lines[k] == pad + parts[k]
  {
    SplitPrefixed(parts, c, pad);
    var padded := PadAll(parts[1..], pad);
    forall k | 0 < k < |parts|
      ensures ([parts[0]] + padded)[k] == pad + parts[k]
    {
      assert ([parts[0]] + padded)[k] == padded[k - 1];
      assert parts[1..][k - 1] == parts[k];
    }
  }

  /** A join whose separator is a break followed by a prefix: split at the
      breaks, every part but the first carries the prefix. */
  lemma SplitPrefixed(parts: seq<string>, c: char, pad: string)
    requires |parts| > 0 && c !in pad
    requires forall k :: 0 <= k < |parts| ==> c !in parts[k]
    ensures Split(Join(parts, [c] + pad), c) == [parts[0]] + PadAll(parts[1..], pad)
  {
    var lines := [parts[0]] + PadAll(parts[1..], pad);
    if |parts| > 1 {
      JoinPadded(parts[1..], c, pad);
      assert Join(parts, [c] + pad) == parts[0] + [c] + Join(PadAll(parts[1..], pad), [c]);
      assert lines[1..] == PadAll(parts[1..], pad);
      assert Join(lines, [c]) == parts[0] + [c] + Join(PadAll(parts[1..], pad), [c]);
    }
    forall k | 0 <= k < |lines|
      ensures c !in lines[k]
    {
      if k > 0 {
        assert lines[k] == pad + parts[k];
      }
    }
    SplitJoin(lines, c);
  }

  /** A join begins with its first part and ends with its last. */
  lemma {:induction false} JoinEnds(parts: seq<string>, sep: string)
    requires |parts| > 0
    ensures var r := Join(parts, sep);
      && |parts[0]| <= |r| && r[..|parts[0]|] == parts[0]
      && |parts[|parts| - 1]| <= |r| && r[|r| - |parts[|parts| - 1]|..] == parts[|parts| - 1]
  {
    if |parts| > 1 {
      JoinEnds(parts[1..], sep);
      var r := Join(parts, sep);
      var rest := Join(parts[1..], sep);
      assert r == parts[0] + sep + rest;
      assert r[|r| - |rest|..] == rest;
      assert parts[1..][|parts| - 2] == parts[|parts| - 1];
    }
  }

  /** `s.padEnd(width, " ")` */
  function PadEnd(s: string, width: int): (r: string)
    ensures |r| == if |s| < width then width else |s|
    ensures r[..|s|] == s
    ensures forall k :: |s| <= k < |r| ==> r[k] == ' '
  {
    if |s| < width then s + Spaces(width - |s|) else s
  }

  function Digit(d: nat): char
    requires d < 10
  {
    "0123456789"[d]
  }

  function DigitValue(c: char): nat
  {
    if '0' <= c <= '9' then (c as int - '0' as int) as nat else 0
  }

  /** The decimal rendering of a number, as in `${n}`. */
  function NatToString(n: nat): (r: string)
    ensures |r| > 0
    ensures forall k :: 0 <= k < |r| ==> '0' <= r[k] <= '9'
  {
    if n < 10 then [Digit(n)] else NatToString(n / 10) + [Digit(n % 10)]
  }

  /** `${i}` for any integer: a minus sign before the digits of a negative
      number, and digits that read back as the number. */
  function IntToString(i: int): (r: string)
    ensures i >= 0 ==> |r| > 0 && (forall k :: 0 <= k < |r| ==> '0' <= r[k] <= '9') && DecimalValue(r) == i
    ensures i < 0 ==> |r| > 1 && r[0] == '-' && (forall k :: 1 <= k < |r| ==> '0' <= r[k] <= '9') && DecimalValue(r[1..]) == -i
  {
    if i < 0 then
      NatToStringRoundTrip(-i);
      MinusDigits(-i)
    else
      NatToStringRoundTrip(i);
      NatToString(i)
  }

  /** A minus sign, then the digits of `n`. */
  function MinusDigits(n: nat): (r: string)
    ensures |r| > 1 && r[0] == '-' && r[1..] == NatToString(n)
  {
    "-" + NatToString(n)
  }

  /** Reading a string of decimal digits back. */
  function DecimalValue(s: string): nat
  {
    if |s| == 0 then 0 else 10 * DecimalValue(s[..|s| - 1]) + DigitValue(s[|s| - 1])
  }

  lemma {:induction false} NatToStringRoundTrip(n: nat)
    ensures DecimalValue(NatToString(n)) == n
  {
    if n >= 10 {
      NatToStringRoundTrip(n / 10);
      var r := NatToString(n);
      assert r[..|r| - 1] == NatToString(n / 10);
    }
  }
}
