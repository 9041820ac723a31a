/** The few `String.prototype` operations the server relies on, over `seq<char>`. */
module Text {

  /** `s.split(sep)` for a one-character separator: the maximal separator-free pieces. */
  function Split(s: string, sep: char): (parts: seq<string>)
    ensures |parts| >= 1
    ensures forall i :: 0 <= i < |parts| ==> sep !in parts[i]
    ensures Join(parts, sep) == s
    decreases |s|
  {
    if s == [] then [""]
    else
      var rest := Split(s[1..], sep);
      if s[0] == sep then
        assert ([""] + rest)[1..] == rest;
        [""] + rest
      else
        var parts := [[s[0]] + rest[0]] + rest[1..];
        assert |rest| > 1 ==> parts[1..] == rest[1..];
        assert s == [s[0]] + s[1..];
        parts
  }

  /** Concatenation of the parts with the separator between them (the inverse of `Split`). */
  function Join(parts: seq<string>, sep: char): string
    requires |parts| >= 1
  {
    if |parts| == 1 then parts[0] else parts[0] + [sep] + Join(parts[1..], sep)
  }

  lemma {:induction false} SplitNoSeparator(x: string, sep: char)
    requires sep !in x
    ensures Split(x, sep) == [x]
    decreases |x|
  {
    if x != [] {
      SplitNoSeparator(x[1..], sep);
      assert x == [x[0]] + x[1..];
    }
  }

  lemma {:induction false} SplitCons(x: string, sep: char, r: string)
    requires sep !in x
    ensures Split(x + [sep] + r, sep) == [x] + Split(r, sep)
    decreases |x|
  {
    var s := x + [sep] + r;
    if x == [] {
      assert s[1..] == r;
    } else {
      assert s[1..] == x[1..] + [sep] + r;
      SplitCons(x[1..], sep, r);
      assert x == [x[0]] + x[1..];
    }
  }

  /** `Split` is the only way to cut `Join(parts)` into separator-free pieces. */
  lemma {:induction false} SplitJoin(parts: seq<string>, sep: char)
    requires |parts| >= 1
    requires forall i :: 0 <= i < |parts| ==> sep !in parts[i]
    ensures Split(Join(parts, sep), sep) == parts
    decreases |parts|
  {
    if |parts| == 1 {
      SplitNoSeparator(parts[0], sep);
    } else {
      SplitJoin(parts[1..], sep);
      SplitCons(parts[0], sep, Join(parts[1..], sep));
      assert parts == [parts[0]] + parts[1..];
    }
  }

  /** The first piece is the longest separator-free prefix. */
  lemma SplitFirst(s: string, sep: char)
    ensures var p := Split(s, sep);
      && p[0] <= s && sep !in p[0]
      && (|p| == 1 ==> p[0] == s)
      && (|p| > 1 ==> |p[0]| < |s| && s[|p[0]|] == sep && p[1..] == Split(s[|p[0]| + 1..], sep))
  {
    var p := Split(s, sep);
    if |p| > 1 {
      assert s == p[0] + [sep] + Join(p[1..], sep);
      assert s[|p[0]| + 1..] == Join(p[1..], sep);
      SplitJoin(p[1..], sep);
    }
  }

  /** The last piece is what follows the last separator. */
  lemma {:induction false} SplitLast(x: string, sep: char, y: string)
    requires sep !in y
    ensures var p := Split(x + [sep] + y, sep); |p| >= 2 && p[|p| - 1] == y
    decreases |x|
  {
    var s := x + [sep] + y;
    if x == [] {
      assert s[1..] == y;
      SplitNoSeparator(y, sep);
    } else {
      assert s[1..] == x[1..] + [sep] + y;
      SplitLast(x[1..], sep, y);
    }
  }

  /** `s.includes(t)`. */
  predicate Contains(s: string, t: string)
    decreases |s|
  {
    t <= s || (s != [] && Contains(s[1..], t))
  }

  /** `t` occurs in `s` starting at position `i`. */
  ghost predicate OccursAt(s: string, t: string, i: int) {
    0 <= i && i + |t| <= |s| && s[i..i + |t|] == t
  }

  /** `Contains` is substring search: some position holds an occurrence. */
  lemma {:induction false} ContainsIff(s: string, t: string)
    ensures Contains(s, t) <==> exists i :: OccursAt(s, t, i)
    decreases |s|
  {
    if t <= s {
      assert OccursAt(s, t, 0);
    } else if s == [] {
      assert forall i :: !OccursAt(s, t, i);
    } else {
      ContainsIff(s[1..], t);
      if Contains(s[1..], t) {
        var i :| OccursAt(s[1..], t, i);
        assert s[i + 1..i + 1 + |t|] == s[1..][i..i + |t|];
        assert OccursAt(s, t, i + 1);
      } else {
        forall i | OccursAt(s, t, i) ensures false {
          if i != 0 {
            assert s[1..][i - 1..i - 1 + |t|] == s[i..i + |t|];
            assert OccursAt(s[1..], t, i - 1);
          }
        }
      }
    }
  }

  /** A string containing `t` still contains it with anything prepended or appended. */
  lemma {:induction false} ContainsConcat(a: string, s: string, b: string, t: string)
    requires Contains(s, t)
    ensures Contains(a + s + b, t)
  {
    ContainsIff(s, t);
    var i :| OccursAt(s, t, i);
    assert (a + s + b)[|a| + i..|a| + i + |t|] == s[i..i + |t|];
    assert OccursAt(a + s + b, t, |a| + i);
    ContainsIff(a + s + b, t);
  }

  /**
   * `toLowerCase` of one character of the Latin-1 range: the ASCII capitals and the
   * Latin-1 capitals `À`..`Þ` except `×` move 32 code points up; every other character is kept.
   */
  function LowerChar(c: char): char {
    if 'A' <= c <= 'Z' || ('\U{C0}' <= c <= '\U{DE}' && c != '\U{D7}') then (c as int + 32) as char else c
  }

  /** `s.toLowerCase()` for text whose capitals lie in the Latin-1 range. */
  function ToLower(s: string): (r: string)
    ensures |r| == |s|
    ensures forall i :: 0 <= i < |s| ==> r[i] == LowerChar(s[i])
  {
    if s == [] then [] else [LowerChar(s[0])] + ToLower(s[1..])
  }

  /** `s` is a non-empty run of decimal digits. */
  predicate AllDigits(s: string) {
    s != [] && forall i :: 0 <= i < |s| ==> '0' <= s[i] <= '9'
  }

  /** The number a run of decimal digits denotes. */
  function DigitsValue(s: string): nat
    requires forall i :: 0 <= i < |s| ==> '0' <= s[i] <= '9'
  {
    if s == [] then 0 else DigitsValue(s[..|s| - 1]) * 10 + (s[|s| - 1] as int - '0' as int)
  }

  function Digit(d: nat): char
    requires d < 10
  {
    "0123456789"[d]
  }

  /** Decimal rendering of a natural number, as a template literal `${n}` prints it. */
  function NatToString(n: nat): (r: string)
    ensures |r| >= 1
    ensures forall i :: 0 <= i < |r| ==> '0' <= r[i] <= '9'
  {
    if n < 10 then [Digit(n)] else NatToString(n / 10) + [Digit(n % 10)]
  }
}
