/**
 * The few JavaScript string operations the slice control relies on:
 * `split` on one character, `join`, `includes`, and the plain decimal text
 * `Number.prototype.toString` gives for an integer of magnitude below 1e21,
 * each with the property that makes it usable in proofs. Integers here are
 * unbounded; exponent form and double rounding are not modelled.
 */
module Strings {

  /** `sub` occurs in `s` starting at position `i`. */
  ghost predicate OccursAt(s: string, sub: string, i: int)
  {
    0 <= i && i + |sub| <= |s| && s[i..i + |sub|] == sub
  }

  /** `s.includes(sub)`: scans `s` from the left for an occurrence of `sub`. */
  function Includes(s: string, sub: string): (r: bool)
    ensures r <==> exists i :: OccursAt(s, sub, i)
    decreases |s|
  {
    if |sub| > |s| then
      false
    else if s[..|sub|] == sub then
      assert OccursAt(s, sub, 0);
      true
    else
      assert forall i :: OccursAt(s[1..], sub, i) ==> OccursAt(s, sub, i + 1);
      assert forall i :: i > 0 && OccursAt(s, sub, i) ==> OccursAt(s[1..], sub, i - 1);
      Includes(s[1..], sub)
  }

  /** `parts.join(sep)`: the parts in order with `sep` between neighbours. */
  function Join(parts: seq<string>, sep: string): string
  {
    if |parts| == 0 then ""
    else if |parts| == 1 then parts[0]
    else parts[0] + sep + Join(parts[1..], sep)
  }

  /**
   * `s.split(sep)` for a one-character separator: the pieces between
   * separators, in order. There is always at least one piece, no piece
   * contains the separator, and joining the pieces gives `s` back.
   */
  function Split(s: string, sep: char): (pieces: seq<string>)
    ensures |pieces| >= 1
    ensures forall k :: 0 <= k < |pieces| ==> sep !in pieces[k]
    ensures Join(pieces, [sep]) == s
    decreases |s|
  {
    if |s| == 0 then
      [""]
    else
      var rest := Split(s[1..], sep);
      if s[0] == sep then
        assert Join([""] + rest, [sep]) == "" + [sep] + Join(rest, [sep]) by {
          assert ([""] + rest)[1..] == rest;
        }
        assert s == [sep] + s[1..];
        [""] + rest
      else
        var pieces := [[s[0]] + rest[0]] + rest[1..];
        if |rest| == 1 then
          assert s == [s[0]] + s[1..];
          pieces
        else
          assert pieces[1..] == rest[1..];
          assert Join(rest, [sep]) == rest[0] + [sep] + Join(rest[1..], [sep]);
          assert s == [s[0]] + s[1..];
          pieces
  }

  lemma {:induction false} SplitSeparated(p: string, t: string, sep: char)
    requires sep !in p
    ensures Split(p + [sep] + t, sep) == [p] + Split(t, sep)
    decreases |p|
  {
    var s := p + [sep] + t;
    if |p| == 0 {
      assert s[1..] == t;
    } else {
      assert s[1..] == p[1..] + [sep] + t;
      SplitSeparated(p[1..], t, sep);
      assert [p[0]] + p[1..] == p;
    }
  }

  /** Splitting undoes joining when no part contains the separator. */
  lemma {:induction false} SplitJoin(parts: seq<string>, sep: char)
    requires |parts| >= 1
    requires forall k :: 0 <= k < |parts| ==> sep !in parts[k]
    ensures Split(Join(parts, [sep]), sep) == parts
    decreases |parts|
  {
    if |parts| > 1 {
      SplitJoin(parts[1..], sep);
      SplitSeparated(parts[0], Join(parts[1..], [sep]), sep);
      assert [parts[0]] + parts[1..] == parts;
    }
  }

  /** Every part with `prefix` put in front of it. */
  function Prefixed(parts: seq<string>, prefix: string): (r: seq<string>)
    ensures |r| == |parts|
    ensures forall k :: 0 <= k < |parts| ==> r[k] == prefix + parts[k]
  {
    seq(|parts|, k requires 0 <= k < |parts| => prefix + parts[k])
  }

  /** Joining with ", " is joining with "," after a space is put before every part but the first. */
  lemma {:induction false} JoinCommaSpace(parts: seq<string>)
    requires |parts| >= 1
    ensures Join(parts, ", ") == Join([parts[0]] + Prefixed(parts[1..], " "), ",")
    decreases |parts|
  {
    if |parts| > 1 {
      var tail := Prefixed(parts[1..], " ");
      JoinTail(parts[1..]);
      assert ([parts[0]] + tail)[1..] == tail;
      calc {
        Join(parts, ", ");
        parts[0] + ", " + Join(parts[1..], ", ");
        parts[0] + (", " + Join(parts[1..], ", "));
        parts[0] + ("," + Join(tail, ","));
        parts[0] + "," + Join(tail, ",");
        Join([parts[0]] + tail, ",");
      }
    }
  }

  lemma {:induction false} JoinTail(rest: seq<string>)
    requires |rest| >= 1
    ensures ", " + Join(rest, ", ") == "," + Join(Prefixed(rest, " "), ",")
    decreases |rest|
  {
    var tail := Prefixed(rest, " ");
    if |rest| > 1 {
      JoinTail(rest[1..]);
      assert tail[1..] == Prefixed(rest[1..], " ");
      calc {
        ", " + Join(rest, ", ");
        ", " + (rest[0] + ", " + Join(rest[1..], ", "));
        "," + (" " + rest[0]) + (", " + Join(rest[1..], ", "));
        "," + (" " + rest[0]) + ("," + Join(Prefixed(rest[1..], " "), ","));
        "," + (tail[0] + "," + Join(tail[1..], ","));
      }
    }
  }

  /** The character for a decimal digit. */
  function DigitChar(d: nat): (c: char)
    requires d < 10
    ensures '0' <= c <= '9' && c as int - '0' as int == d
  {
    (d + '0' as int) as char
  }

  /** `n.toString()` for a natural number: its decimal digits, most significant first. */
  function NatToString(n: nat): (s: string)
    ensures |s| >= 1
    ensures forall k :: 0 <= k < |s| ==> '0' <= s[k] <= '9'
    decreases n
  {
    if n < 10 then [DigitChar(n)] else NatToString(n / 10) + [DigitChar(n % 10)]
  }

  /** `i.toString()` for an integer: a minus sign for negatives, then the decimal digits. */
  function IntToString(i: int): (s: string)
    ensures |s| >= 1
    ensures ',' !in s && ' ' !in s && ':' !in s
    ensures (i < 0) <==> s[0] == '-'
  {
    if i < 0 then "-" + NatToString(-i) else NatToString(i)
  }

  /** The value of a string of decimal digits (what `parseInt` reads from it). */
  function DigitsValue(s: string): (v: nat)
    requires forall k :: 0 <= k < |s| ==> '0' <= s[k] <= '9'
  {
    if |s| == 0 then 0 else DigitsValue(s[..|s| - 1]) * 10 + (s[|s| - 1] as int - '0' as int)
  }

  /** `parseInt` on an optionally signed string of decimal digits. */
  function ParseDecimal(s: string): int
    requires |s| >= 1
    requires forall k :: 1 <= k < |s| ==> '0' <= s[k] <= '9'
    requires s[0] == '-' || '0' <= s[0] <= '9'
  {
    if s[0] == '-' then -(DigitsValue(s[1..]) as int) else DigitsValue(s)
  }

  lemma {:induction false} NatToStringRoundTrip(n: nat)
    ensures DigitsValue(NatToString(n)) == n
    decreases n
  {
    if n >= 10 {
      var s := NatToString(n);
      NatToStringRoundTrip(n / 10);
      assert s[..|s| - 1] == NatToString(n / 10);
    }
  }

  /** `parseInt` reads back the integer that `toString` wrote, so distinct integers print differently. */
  lemma IntToStringRoundTrip(i: int)
    ensures ParseDecimal(IntToString(i)) == i
  {
    if i < 0 {
      assert IntToString(i)[1..] == NatToString(-i);
      NatToStringRoundTrip(-i);
    } else {
      NatToStringRoundTrip(i);
    }
  }
}
