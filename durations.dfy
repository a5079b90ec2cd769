/**
 * The pure half of `Language.duration`: a non-negative duration, counted in
 * milliseconds, is cut into day, hour, minute, second and millisecond parts
 * (as `java.time.Duration`'s `to*Part` methods do), a template key is chosen
 * by the largest non-zero part, and the five placeholders of the resolved
 * template are replaced by the parts' decimal values.
 */
module Durations {
  import Text

  datatype Parts = Parts(days: nat, hours: nat, minutes: nat, seconds: nat, millis: nat)

  /** Every part except the days is below its unit's radix. */
  predicate InRange(p: Parts)
  {
    p.hours < 24 && p.minutes < 60 && p.seconds < 60 && p.millis < 1000
  }

  /** The number of milliseconds the parts add up to. */
  function Total(p: Parts): nat
  {
    (((p.days * 24 + p.hours) * 60 + p.minutes) * 60 + p.seconds) * 1000 + p.millis
  }

  /** `toDaysPart`, `toHoursPart`, `toMinutesPart`, `toSecondsPart` and
      `toMillisPart` of a duration of `millis` milliseconds. */
  function PartsOf(millis: nat): (p: Parts)
    ensures InRange(p)
    ensures Total(p) == millis
  {
    var s := millis / 1000;
    DivDiv(s, 60, 60);
    DivDiv(s, 3600, 24);
    var p := Parts(s / 86400, (s / 3600) % 24, (s / 60) % 60, s % 60, millis % 1000);
    assert s / 3600 == (s / 86400) * 24 + (s / 3600) % 24;
    assert s / 60 == (s / 3600) * 60 + (s / 60) % 60;
    assert s == (s / 60) * 60 + s % 60;
    assert millis == s * 1000 + millis % 1000;
    p
  }

  /** Division with a remainder in range has a unique quotient and remainder. */
  lemma DivUnique(n: nat, d: nat, q: int, r: nat)
    requires d > 0 && r < d && n == q * d + r
    ensures n / d == q && n % d == r
  {
    var q', r' := n / d, n % d;
    assert (q' - q) * d == r - r';
    MulBounded(q' - q, d);
  }

  /** A multiple of `d` strictly between `-d` and `d` is zero. */
  lemma MulBounded(k: int, d: nat)
    requires d > 0 && -(d as int) < k * d < d
    ensures k == 0
  {
  }

  lemma MulLess(x: int, y: int, a: nat)
    requires a > 0 && x * a < y * a
    ensures x < y
  {
  }

  lemma Regroup(q: int, a: int, b: int, r1: int, r0: int)
    ensures q * (a * b) + (r1 * a + r0) == (q * b + r1) * a + r0
  {
  }

  lemma QuotientBelow(r: nat, a: nat, b: nat)
    requires a > 0 && r < a * b
    ensures r / a < b
  {
    var q := r / a;
    assert q * a <= r;
    assert a * b == b * a;
    MulLess(q, b, a);
  }

  lemma DivDiv(n: nat, a: nat, b: nat)
    requires a > 0 && b > 0
    ensures n / a / b == n / (a * b)
  {
    var q, r := n / (a * b), n % (a * b);
    QuotientBelow(r, a, b);
    var r1, r0 := r / a, r % a;
    Regroup(q, a, b, r1, r0);
    DivUnique(n, a, q * b + r1, r0);
    DivUnique(n / a, b, q, r1);
  }

  /** Cutting the total of in-range parts gives those parts back: together
      with `PartsOf`'s own contract, the cut is a bijection between
      milliseconds and in-range parts. */
  lemma PartsOfTotal(p: Parts)
    requires InRange(p)
    ensures PartsOf(Total(p)) == p
  {
    var n := Total(p);
    var s := ((p.days * 24 + p.hours) * 60 + p.minutes) * 60 + p.seconds;
    DivUnique(n, 1000, s, p.millis);
    DivUnique(s, 60, (p.days * 24 + p.hours) * 60 + p.minutes, p.seconds);
    DivDiv(s, 60, 60);
    DivUnique(s / 60, 60, p.days * 24 + p.hours, p.minutes);
    DivDiv(s, 3600, 24);
    DivUnique(s / 3600, 24, p.days, p.hours);
  }

  /** The template buckets, largest first. */
  datatype Unit = Days | Hours | Minutes | Seconds | Millis {
    function Name(): (n: string)
      ensures |n| > 0 && forall i :: 0 <= i < |n| ==> n[i] != '%' && !Text.IsDigit(n[i])
    {
      match this
      case Days => "days"
      case Hours => "hours"
      case Minutes => "minutes"
      case Seconds => "seconds"
      case Millis => "millis"
    }

    function Rank(): nat
    {
      match this
      case Days => 0
      case Hours => 1
      case Minutes => 2
      case Seconds => 3
      case Millis => 4
    }
  }

  function Part(p: Parts, u: Unit): nat
  {
    match u
    case Days => p.days
    case Hours => p.hours
    case Minutes => p.minutes
    case Seconds => p.seconds
    case Millis => p.millis
  }

  /** A unit is an admissible bucket when no larger unit is non-zero and it
      is non-zero itself, except that seconds stand in for a zero duration
      unless precise output is asked for, in which case milliseconds do. */
  predicate Admissible(p: Parts, precise: bool, u: Unit)
  {
    && (forall v: Unit :: v.Rank() < u.Rank() ==> Part(p, v) == 0)
    && (Part(p, u) > 0 || (u == Seconds && !precise) || u == Millis)
    && (u == Millis ==> precise)
  }

  /** The bucket `duration` picks: days, hours or minutes when non-zero,
      then seconds when non-zero or when not precise, else milliseconds. */
  function Bucket(p: Parts, precise: bool): (u: Unit)
    ensures Admissible(p, precise, u)
  {
    if p.days > 0 then Days
    else if p.hours > 0 then Hours
    else if p.minutes > 0 then Minutes
    else if p.seconds > 0 || !precise then Seconds
    else Millis
  }

  /** The admissible bucket is unique, so `Bucket` is exactly "the largest
      non-zero part". */
  lemma BucketUnique(p: Parts, precise: bool, u: Unit)
    requires Admissible(p, precise, u)
    ensures u == Bucket(p, precise)
  {
    var b := Bucket(p, precise);
    if u.Rank() < b.Rank() {
      assert Part(p, u) == 0;
    } else if b.Rank() < u.Rank() {
      assert Part(p, b) == 0;
    }
  }

  const PreciseSuffix: string := ".precise"

  /** The translation key of the template for the parts. */
  function TemplateKey(p: Parts, precise: bool): (key: string)
    ensures precise <==> |key| >= |PreciseSuffix| && key[|key| - |PreciseSuffix|..] == PreciseSuffix
  {
    Bucket(p, precise).Name() + (if precise then PreciseSuffix else "")
  }

  lemma TemplateKeyExamples()
    ensures TemplateKey(Parts(0, 2, 5, 30, 0), false) == "hours"
    ensures TemplateKey(Parts(0, 2, 5, 30, 0), true) == "hours.precise"
    ensures TemplateKey(Parts(0, 0, 0, 0, 0), false) == "seconds"
    ensures TemplateKey(Parts(0, 0, 0, 0, 0), true) == "millis.precise"
  {
  }

  /** The placeholder of a unit in a template: its name between percent signs. */
  function Placeholder(u: Unit): (t: string)
    ensures |t| >= 2 && t[0] == '%' && t[|t| - 1] == '%'
    ensures forall i :: 0 < i < |t| - 1 ==> t[i] != '%'
  {
    "%" + u.Name() + "%"
  }

  /** One replacement of `duration`'s chain: the unit's placeholder by the
      unit's part in decimal. A text without a percent sign is left alone. */
  function FillStep(s: string, p: Parts, u: Unit): (r: string)
    ensures '%' !in s ==> r == s
  {
    Text.Replace(s, Placeholder(u), Text.NatToString(Part(p, u)))
  }

  /** The template with `%days%`, `%hours%`, `%minutes%`, `%seconds%` and
      `%millis%` replaced, in that order, by the parts' decimal values. A
      template without a percent sign is rendered verbatim. */
  function Fill(template: string, p: Parts): (r: string)
    ensures '%' !in template ==> r == template
  {
    var t1 := FillStep(template, p, Days);
    var t2 := FillStep(t1, p, Hours);
    var t3 := FillStep(t2, p, Minutes);
    var t4 := FillStep(t3, p, Seconds);
    FillStep(t4, p, Millis)
  }

  /** Different units have different placeholders. */
  lemma PlaceholderInjective(u: Unit, v: Unit)
    ensures Placeholder(u) == Placeholder(v) ==> u == v
  {
    if Placeholder(u) == Placeholder(v) {
      assert |Placeholder(u)| == |Placeholder(v)| && Placeholder(u)[1] == Placeholder(v)[1];
    }
  }

  /** A template written as pieces: a leading literal, then each placeholder
      with the literal that follows it. */
  datatype Slot = Slot(unit: Unit, after: string)

  /** How a placeholder reads once the units in `done` are filled in. */
  function Shown(u: Unit, p: Parts, done: set<Unit>): (r: string)
    ensures |r| > 0 && (r[0] == '%' || Text.IsDigit(r[0]))
    ensures u in done ==> '%' !in r
  {
    if u in done then
      var digits := Text.NatToString(Part(p, u));
      assert !Text.IsDigit('%');
      digits
    else Placeholder(u)
  }

  /** The template text with the placeholders of the units in `done`
      replaced by their parts in decimal; with `done` empty it is the
      template itself. */
  function Render(lead: string, slots: seq<Slot>, p: Parts, done: set<Unit>): string
    decreases |slots|
  {
    if slots == [] then lead
    else lead + Shown(slots[0].unit, p, done) + Render(slots[0].after, slots[1..], p, done)
  }

  /** The literal is not exactly a unit's name, so between two placeholders
      it cannot spell a third one with their percent signs. */
  predicate NotAName(s: string)
  {
    forall u: Unit :: u.Name() != s
  }

  /** The literals hold no percent sign, and none that stands between two
      placeholders is a unit's name. */
  predicate WellFormed(lead: string, slots: seq<Slot>)
  {
    && '%' !in lead
    && (forall k :: 0 <= k < |slots| ==> '%' !in slots[k].after)
    && (forall k :: 0 <= k < |slots| - 1 ==> NotAName(slots[k].after))
  }

  /** A rendered text after a placeholder never starts with a unit's name
      followed by a percent sign. */
  lemma NoNameAhead(lead: string, slots: seq<Slot>, p: Parts, done: set<Unit>, v: Unit)
    requires WellFormed(lead, slots)
    requires slots != [] ==> NotAName(lead)
    ensures var t, n := Render(lead, slots, p, done), v.Name();
            |n| < |t| && t[..|n|] == n ==> t[|n|] != '%'
  {
    var t, n := Render(lead, slots, p, done), v.Name();
    if |n| < |t| {
      if slots == [] || |n| < |lead| {
        assert t[|n|] == lead[|n|];
      } else if |n| == |lead| {
        assert t[..|n|] == lead != n;
      } else {
        var shown := Shown(slots[0].unit, p, done);
        assert t[..|n|][|lead|] == shown[0] != n[|lead|];
      }
    }
  }

  /** Before the end of the first placeholder of another unit, no
      occurrence of `v`'s placeholder starts, provided what follows does not
      begin with `v`'s name and a percent sign. */
  lemma NoEarlyOccurrence(lead: string, u: Unit, tail: string, v: Unit, i: int)
    requires '%' !in lead && u != v
    requires var n := v.Name(); |n| < |tail| && tail[..|n|] == n ==> tail[|n|] != '%'
    requires 0 <= i < |lead| + |Placeholder(u)|
    ensures !Text.OccursAt(lead + Placeholder(u) + tail, Placeholder(v), i)
  {
    var pu := Placeholder(u);
    if i < |lead| {
      NoOccurrenceInLead(lead, pu + tail, Placeholder(v), i);
      Text.AppendAssociates(lead, pu, tail);
    } else if i < |lead| + |pu| - 1 {
      NoOccurrenceInside(lead, u, tail, v, i);
    } else {
      NoOccurrenceAtClose(lead, u, tail, v);
    }
  }

  /** A placeholder cannot start inside percent-free text. */
  lemma NoOccurrenceInLead(lead: string, rest: string, pv: string, i: int)
    requires '%' !in lead && |pv| > 0 && pv[0] == '%'
    requires 0 <= i < |lead|
    ensures !Text.OccursAt(lead + rest, pv, i)
  {
    var s := lead + rest;
    if i + |pv| <= |s| {
      assert s[i..i + |pv|][0] == lead[i];
    }
  }

  /** Another unit's placeholder cannot start inside a placeholder, before its
      closing percent. */
  lemma NoOccurrenceInside(lead: string, u: Unit, tail: string, v: Unit, i: int)
    requires u != v
    requires |lead| <= i < |lead| + |Placeholder(u)| - 1
    ensures !Text.OccursAt(lead + Placeholder(u) + tail, Placeholder(v), i)
  {
    var s, pu, pv := lead + Placeholder(u) + tail, Placeholder(u), Placeholder(v);
    if i + |pv| <= |s| {
      var window := s[i..i + |pv|];
      assert window[0] == s[i] == pu[i - |lead|];
      if i == |lead| {
        PlaceholderInjective(u, v);
        if |pv| < |pu| {
          assert window[|pv| - 1] == s[i + |pv| - 1] == pu[|pv| - 1];
        } else if |pv| > |pu| {
          assert window[|pu| - 1] == s[i + |pu| - 1] == pu[|pu| - 1];
        } else {
          assert s[|lead|..|lead| + |pu|] == pu;
        }
      }
    }
  }

  /** Another unit's placeholder cannot start at the closing percent of a
      placeholder when the text after it does not begin with that unit's name
      and a percent. */
  lemma NoOccurrenceAtClose(lead: string, u: Unit, tail: string, v: Unit)
    requires var n := v.Name(); |n| < |tail| && tail[..|n|] == n ==> tail[|n|] != '%'
    ensures !Text.OccursAt(lead + Placeholder(u) + tail, Placeholder(v), |lead| + |Placeholder(u)| - 1)
  {
    var pu := Placeholder(u);
    var a := lead + pu[..|pu| - 1];
    assert pu == pu[..|pu| - 1] + "%";
    assert lead + pu + tail == a + ("%" + tail);
    OccursAfter(a, "%" + tail, Placeholder(v));
    NoOccurrenceAfterPercent(tail, v.Name());
  }

  /** An occurrence just past a prefix is an occurrence at the start of the rest. */
  lemma OccursAfter(a: string, b: string, t: string)
    ensures Text.OccursAt(a + b, t, |a|) ==> Text.OccursAt(b, t, 0)
  {
    if |a| + |t| <= |a + b| {
      assert (a + b)[|a|..|a| + |t|] == b[..|t|];
    }
  }

  /** "%" followed by text that does not begin with `n` and a percent does not
      begin with "%n%". */
  lemma NoOccurrenceAfterPercent(tail: string, n: string)
    requires |n| < |tail| && tail[..|n|] == n ==> tail[|n|] != '%'
    ensures !Text.OccursAt("%" + tail, "%" + n + "%", 0)
  {
    var s, pv := "%" + tail, "%" + n + "%";
    if |pv| <= |s| {
      var window := s[..|pv|];
      assert window[1..] == tail[..|n| + 1];
      assert pv[1..|n| + 1] == n && pv[|n| + 1] == '%';
      if tail[..|n|] == n {
        assert window[|n| + 1] == tail[|n|] != pv[|n| + 1];
      } else {
        assert window[1..|n| + 1] == tail[..|n|] != pv[1..|n| + 1];
      }
    }
  }

  /** One step of the chain on a well-formed template: every placeholder of
      the step's unit, and nothing else, is replaced by that part's digits. */
  lemma {:induction false} FillStepRender(lead: string, slots: seq<Slot>, p: Parts, done: set<Unit>, v: Unit)
    requires WellFormed(lead, slots) && v !in done
    ensures FillStep(Render(lead, slots, p, done), p, v) == Render(lead, slots, p, done + {v})
    decreases |slots|
  {
    var target, digits := Placeholder(v), Text.NatToString(Part(p, v));
    if slots != [] {
      var u, after, rest := slots[0].unit, slots[0].after, slots[1..];
      var shown, tail := Shown(u, p, done), Render(after, rest, p, done);
      assert WellFormed(after, rest) by {
        forall k | 0 <= k < |rest| ensures '%' !in rest[k].after {
          assert rest[k] == slots[k + 1];
        }
        forall k | 0 <= k < |rest| - 1 ensures NotAName(rest[k].after) {
          assert rest[k] == slots[k + 1];
        }
      }
      FillStepRender(after, rest, p, done, v);
      assert Shown(u, p, done + {v}) == if u == v then digits else shown;
      if u == v {
        forall i | 0 <= i < |lead| ensures !Text.OccursAt(lead + target + tail, target, i) {
          assert (lead + target + tail)[i] == lead[i];
        }
        Text.ReplaceFirst(lead, target, tail, digits);
      } else {
        if u in done {
          forall i | 0 <= i < |lead + shown| ensures !Text.OccursAt(lead + shown + tail, target, i) {
            assert (lead + shown + tail)[i] == (lead + shown)[i];
          }
        } else {
          NoNameAhead(after, rest, p, done, v);
          forall i | 0 <= i < |lead + shown| ensures !Text.OccursAt(lead + shown + tail, target, i) {
            NoEarlyOccurrence(lead, u, tail, v, i);
          }
        }
        Text.ReplaceSkip(lead + shown, target, tail, digits);
      }
    }
  }

  /** `duration`'s chain on a template of percent-free literals and
      placeholders, where no literal between two placeholders is a unit's
      name: every placeholder is replaced by its part in decimal. (A literal
      such as `days` between `%hours%` and `%minutes%` would itself read as
      `%days%` and be replaced, as in Java.) */
  lemma FillTemplate(lead: string, slots: seq<Slot>, p: Parts)
    requires WellFormed(lead, slots)
    ensures Fill(Render(lead, slots, p, {}), p) == Render(lead, slots, p, {Days, Hours, Minutes, Seconds, Millis})
  {
    var d1, d2, d3, d4 := {Days}, {Days, Hours}, {Days, Hours, Minutes}, {Days, Hours, Minutes, Seconds};
    var d5 := {Days, Hours, Minutes, Seconds, Millis};
    var r0, r1, r2 := Render(lead, slots, p, {}), Render(lead, slots, p, d1), Render(lead, slots, p, d2);
    var r3, r4, r5 := Render(lead, slots, p, d3), Render(lead, slots, p, d4), Render(lead, slots, p, d5);
    FillStepRender(lead, slots, p, {}, Days);
    assert {} + {Days} == d1;
    assert FillStep(r0, p, Days) == r1;
    FillStepRender(lead, slots, p, d1, Hours);
    assert d1 + {Hours} == d2;
    assert FillStep(r1, p, Hours) == r2;
    FillStepRender(lead, slots, p, d2, Minutes);
    assert d2 + {Minutes} == d3;
    assert FillStep(r2, p, Minutes) == r3;
    FillStepRender(lead, slots, p, d3, Seconds);
    assert d3 + {Seconds} == d4;
    assert FillStep(r3, p, Seconds) == r4;
    FillStepRender(lead, slots, p, d4, Millis);
    assert d4 + {Millis} == d5;
    assert FillStep(r4, p, Millis) == r5;
  }

  /** A template holding one placeholder in percent-free text is rendered
      with exactly that placeholder replaced by its part's decimal value. */
  lemma FillPlaceholder(x: string, u: Unit, y: string, p: Parts)
    requires '%' !in x && '%' !in y
    ensures Fill(x + Placeholder(u) + y, p) == x + Text.NatToString(Part(p, u)) + y
  {
    var slots := [Slot(u, y)];
    assert Render(y, [], p, {}) == y;
    FillTemplate(x, slots, p);
  }

  /** Two placeholders, such as `%hours% h %minutes% min`: each is replaced
      by its own part, when the literal between them is not a unit's name. */
  lemma FillTwoPlaceholders(x: string, u: Unit, y: string, v: Unit, z: string, p: Parts)
    requires '%' !in x && '%' !in y && '%' !in z && NotAName(y)
    ensures Fill(x + Placeholder(u) + y + Placeholder(v) + z, p)
            == x + Text.NatToString(Part(p, u)) + y + Text.NatToString(Part(p, v)) + z
  {
    var slots := [Slot(u, y), Slot(v, z)];
    var all := {Days, Hours, Minutes, Seconds, Millis};
    var du, dv := Text.NatToString(Part(p, u)), Text.NatToString(Part(p, v));
    assert slots[1..] == [Slot(v, z)] && slots[1..][1..] == [];
    assert Render(y, [Slot(v, z)], p, {}) == y + Placeholder(v) + z;
    assert Render(y, [Slot(v, z)], p, all) == y + dv + z;
    RegroupFive(x, Placeholder(u), y, Placeholder(v), z);
    RegroupFive(x, du, y, dv, z);
    FillTemplate(x, slots, p);
  }

  lemma RegroupFive(a: string, b: string, c: string, d: string, e: string)
    ensures a + b + c + d + e == a + b + (c + d + e)
  {
    Text.AppendAssociates(a + b + c, d, e);
    Text.AppendAssociates(a + b, c, d + e);
    Text.AppendAssociates(c, d, e);
  }
}
