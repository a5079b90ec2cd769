/**
 * The string operations the language entity relies on: joining lines with a
 * line feed (`String.join("\n", ...)`), literal replacement of every
 * occurrence (`String.replace`) and decimal rendering of a count
 * (`Long.toString`, `Integer.toString`). Each comes with an independent
 * inverse or characterisation: `Split` undoes `Join`, `ParseNat` undoes
 * `NatToString`.
 */
module Text {

  const LF: char := '\n'
  const CR: char := '\r'

  /** `String.join("\n", lines)`: the lines separated by single line feeds. */
  function Join(lines: seq<string>): (s: string)
    ensures |lines| == 0 ==> s == ""
    ensures |lines| == 1 ==> s == lines[0]
  {
    if |lines| == 0 then ""
    else if |lines| == 1 then lines[0]
    else lines[0] + [LF] + Join(lines[1..])
  }

  /** Cuts a text at every line feed; the reference inverse of `Join`. */
  function Split(s: string): (r: seq<string>)
    ensures |r| >= 1
    decreases |s|
  {
    if |s| == 0 then [""]
    else if s[0] == LF then [""] + Split(s[1..])
    else
      var rest := Split(s[1..]);
      [[s[0]] + rest[0]] + rest[1..]
  }

  lemma {:induction false} SplitWithoutBreak(a: string)
    requires LF !in a
    ensures Split(a) == [a]
    decreases |a|
  {
    if |a| > 0 {
      assert LF !in a[1..];
      SplitWithoutBreak(a[1..]);
      assert [a[0]] + a[1..] == a;
    }
  }

  lemma {:induction false} SplitAtFirstBreak(a: string, b: string)
    requires LF !in a
    ensures Split(a + [LF] + b) == [a] + Split(b)
    decreases |a|
  {
    if |a| == 0 {
      assert a + [LF] + b == [LF] + b;
      assert ([LF] + b)[1..] == b;
    } else {
      var s := a + [LF] + b;
      assert s[0] == a[0] && s[0] != LF;
      assert s[1..] == a[1..] + [LF] + b;
      assert LF !in a[1..];
      SplitAtFirstBreak(a[1..], b);
      assert [a[0]] + a[1..] == a;
    }
  }

  /** Joining non-empty, break-free lines and cutting the result at the line
      feeds gives the same lines back, in the same order. */
  lemma {:induction false} SplitJoin(lines: seq<string>)
    requires |lines| >= 1
    requires forall i :: 0 <= i < |lines| ==> LF !in lines[i]
    ensures Split(Join(lines)) == lines
    decreases |lines|
  {
    if |lines| == 1 {
      SplitWithoutBreak(lines[0]);
    } else {
      SplitJoin(lines[1..]);
      SplitAtFirstBreak(lines[0], Join(lines[1..]));
      assert [lines[0]] + lines[1..] == lines;
    }
  }

  /** Two tables of break-free, non-empty line lists join to the same text
      exactly when the lists are equal. */
  lemma JoinInjective(a: seq<string>, b: seq<string>)
    requires |a| >= 1 && |b| >= 1
    requires forall i :: 0 <= i < |a| ==> LF !in a[i]
    requires forall i :: 0 <= i < |b| ==> LF !in b[i]
    ensures Join(a) == Join(b) <==> a == b
  {
    SplitJoin(a);
    SplitJoin(b);
  }

  lemma JoinThreeLines()
    ensures Join(["a", "b", "c"]) == "a\nb\nc"
  {
  }

  /** True when `target` appears in `s` starting at position `i`. */
  predicate OccursAt(s: string, target: string, i: int)
  {
    0 <= i <= |s| - |target| && s[i..i + |target|] == target
  }

  /** True when `target` appears in `s` at some position. */
  ghost predicate Occurs(s: string, target: string)
  {
    exists i :: OccursAt(s, target, i)
  }

  /** `String.replace(target, replacement)`: scans left to right and replaces
      every non-overlapping occurrence; an empty target inserts the
      replacement before every character and at the end. */
  function Replace(s: string, target: string, replacement: string): (r: string)
    ensures |target| > 0 && target[0] !in s ==> r == s
    ensures |target| > 0 && replacement == target ==> r == s
    decreases |s|
  {
    if |target| == 0 then Interleave(s, replacement)
    else if |s| < |target| then s
    else if s[..|target|] == target then replacement + Replace(s[|target|..], target, replacement)
    else [s[0]] + Replace(s[1..], target, replacement)
  }

  function Interleave(s: string, r: string): (t: string)
    ensures |t| == |s| + (|s| + 1) * |r|
  {
    if |s| == 0 then r else r + [s[0]] + Interleave(s[1..], r)
  }

  /** A text in which the (non-empty) target does not occur is returned as is. */
  lemma {:induction false} ReplaceAbsent(s: string, target: string, replacement: string)
    requires |target| > 0
    requires !Occurs(s, target)
    ensures Replace(s, target, replacement) == s
    decreases |s|
  {
    if |s| >= |target| {
      assert !OccursAt(s, target, 0);
      forall i ensures !OccursAt(s[1..], target, i) {
        assert !OccursAt(s, target, i + 1);
        if 0 <= i <= |s[1..]| - |target| {
          assert s[1..][i..i + |target|] == s[i + 1..i + 1 + |target|];
        }
      }
      ReplaceAbsent(s[1..], target, replacement);
      assert [s[0]] + s[1..] == s;
    }
  }

  /** Concatenation regroups. */
  lemma AppendAssociates<T>(a: seq<T>, b: seq<T>, c: seq<T>)
    ensures a + b + c == a + (b + c)
  {
  }

  /** Occurrences in the tail of a text are those in the text, one place on. */
  lemma OccursAtTail(s: string, target: string, i: int)
    requires |s| > 0 && 0 <= i
    ensures OccursAt(s[1..], target, i) <==> OccursAt(s, target, i + 1)
  {
    if 0 <= i <= |s[1..]| - |target| {
      assert s[1..][i..i + |target|] == s[i + 1..i + 1 + |target|];
    }
  }

  /** A prefix in which no occurrence of the (non-empty) target starts is
      copied, and the scan goes on after it. */
  lemma {:induction false} ReplaceSkip(a: string, target: string, b: string, replacement: string)
    requires |target| > 0
    requires forall i :: 0 <= i < |a| ==> !OccursAt(a + b, target, i)
    ensures Replace(a + b, target, replacement) == a + Replace(b, target, replacement)
    decreases |a|
  {
    var s := a + b;
    if |a| > 0 {
      var tail := a[1..] + b;
      assert s[1..] == tail;
      forall i | 0 <= i < |a[1..]| ensures !OccursAt(tail, target, i) {
        OccursAtTail(s, target, i);
      }
      ReplaceSkip(a[1..], target, b, replacement);
      if |s| < |target| {
        assert Replace(b, target, replacement) == b;
      } else {
        assert !OccursAt(s, target, 0);
        assert Replace(s, target, replacement) == [a[0]] + Replace(tail, target, replacement);
        assert a == [a[0]] + a[1..];
        AppendAssociates([a[0]], a[1..], Replace(b, target, replacement));
      }
    } else {
      assert s == b;
    }
  }

  /** Up to the first occurrence of the target the text is copied; that
      occurrence becomes the replacement, and the scan goes on after it. */
  lemma ReplaceFirst(a: string, target: string, b: string, replacement: string)
    requires |target| > 0
    requires forall i :: 0 <= i < |a| ==> !OccursAt(a + target + b, target, i)
    ensures Replace(a + target + b, target, replacement) == a + replacement + Replace(b, target, replacement)
  {
    AppendAssociates(a, target, b);
    ReplaceSkip(a, target, target + b, replacement);
    assert (target + b)[..|target|] == target && (target + b)[|target|..] == b;
    AppendAssociates(a, replacement, Replace(b, target, replacement));
  }

  /** Replacing a whole text that is exactly the target yields the replacement. */
  lemma ReplaceWhole(target: string, replacement: string)
    requires |target| > 0
    ensures Replace(target, target, replacement) == replacement
  {
    assert target[..|target|] == target;
  }

  predicate IsDigit(c: char) { '0' as int <= c as int <= '9' as int }

  function DigitChar(d: nat): (c: char)
    requires d < 10
    ensures IsDigit(c)
  {
    ('0' as int + d) as char
  }

  /** Decimal rendering of a non-negative count, without sign or leading zeros. */
  function NatToString(n: nat): (s: string)
    ensures |s| >= 1
    ensures forall i :: 0 <= i < |s| ==> IsDigit(s[i])
    ensures n > 0 ==> s[0] != '0'
    decreases n
  {
    if n < 10 then [DigitChar(n)] else NatToString(n / 10) + [DigitChar(n % 10)]
  }

  /** Reads a decimal numeral back; the reference inverse of `NatToString`. */
  function ParseNat(s: string): nat
    requires forall i :: 0 <= i < |s| ==> IsDigit(s[i])
    decreases |s|
  {
    if |s| == 0 then 0
    else
      var last := s[|s| - 1];
      assert IsDigit(last);
      ParseNat(s[..|s| - 1]) * 10 + (last as int - '0' as int)
  }

  lemma {:induction false} ParseNatToString(n: nat)
    ensures ParseNat(NatToString(n)) == n
    decreases n
  {
    var s := NatToString(n);
    if n >= 10 {
      ParseNatToString(n / 10);
      assert s[..|s| - 1] == NatToString(n / 10);
    }
  }

  /** Two counts render identically only when they are equal. */
  lemma NatToStringInjective(m: nat, n: nat)
    ensures NatToString(m) == NatToString(n) <==> m == n
  {
    ParseNatToString(m);
    ParseNatToString(n);
  }
}
