/**
 * Comparison of two languages' key sets: the keys the compared language has
 * and the base lacks (extra), and the keys the base has and the compared
 * language lacks (missing).
 */
module Checker {
  import Languages

  type Language = Languages.Language

  /** `CheckResult`: the two languages and the two key differences. The
      record's defensive `Set.copyOf` is implicit, as sets are values. */
  datatype CheckResult = CheckResult(base: Language, compared: Language,
                                     extraKeys: set<string>, missingKeys: set<string>)
  {
    /** `clean()`: no key is extra and no key is missing. */
    predicate Clean(): (r: bool)
      ensures r <==> forall key :: key !in extraKeys && key !in missingKeys
    {
      extraKeys == {} && missingKeys == {}
    }

    /** `dirty()`: some extra or some missing key; the negation of `Clean`. */
    function Dirty(): (r: bool)
      ensures r == !Clean()
    {
      extraKeys != {} || missingKeys != {}
    }
  }

  /** `CheckResult.same(language)`: the result of comparing a language with
      itself, which is clean. */
  function Same(language: Language): (r: CheckResult)
    ensures r.base == language && r.compared == language
    ensures r.Clean() && !r.Dirty()
  {
    CheckResult(language, language, {}, {})
  }

  /** The result of comparing two languages by their table keys. */
  function Difference(base: Language, compare: Language): CheckResult
  {
    CheckResult(base, compare, compare.data.Keys - base.data.Keys, base.data.Keys - compare.data.Keys)
  }

  /** `checkSingle(base, compare)`: the identity shortcut answers exactly
      what the key comparison would, so the result is always the difference
      of the two key sets. */
  function CheckSingle(base: Language, compare: Language): (r: CheckResult)
    ensures r == Difference(base, compare)
    ensures forall key :: key in r.extraKeys <==> key in compare.data && key !in base.data
    ensures forall key :: key in r.missingKeys <==> key in base.data && key !in compare.data
  {
    if base == compare then
      assert base.data.Keys - base.data.Keys == {};
      Same(base)
    else
      var extraKeys := compare.data.Keys - base.data.Keys;
      var missingKeys := base.data.Keys - compare.data.Keys;
      CheckResult(base, compare, extraKeys, missingKeys)
  }

  /** A comparison is clean exactly when both tables have the same keys. */
  lemma CleanIffSameKeys(base: Language, compare: Language)
    ensures CheckSingle(base, compare).Clean() <==> base.data.Keys == compare.data.Keys
  {
    var r := CheckSingle(base, compare);
    if r.Clean() {
      forall key ensures key in base.data <==> key in compare.data {
        assert key !in r.extraKeys && key !in r.missingKeys;
      }
    }
  }

  /** Swapping the languages swaps extra and missing keys; the two sets never
      share a key and each lies in the table it was found in. */
  lemma CheckSingleSwap(a: Language, b: Language)
    ensures CheckSingle(a, b).extraKeys == CheckSingle(b, a).missingKeys
    ensures CheckSingle(a, b).missingKeys == CheckSingle(b, a).extraKeys
    ensures CheckSingle(a, b).extraKeys !! CheckSingle(a, b).missingKeys
    ensures CheckSingle(a, b).extraKeys <= b.data.Keys && CheckSingle(a, b).missingKeys <= a.data.Keys
  {
  }

  /** Languages that are `equals` compare clean, whether or not they are the
      same object. */
  lemma EqualLanguagesClean(a: Language, b: Language)
    requires a.Equals(b)
    ensures CheckSingle(a, b).Clean()
  {
    CleanIffSameKeys(a, b);
  }

  /** `checkMulti(base, compares)`: one result per compared language, in
      the collection's iteration order. */
  method CheckMulti(base: Language, compares: seq<Language>) returns (results: seq<CheckResult>)
    ensures |results| == |compares|
    ensures forall i :: 0 <= i < |compares| ==> results[i] == CheckSingle(base, compares[i])
  {
    results := [];
    for i := 0 to |compares|
      invariant |results| == i
      invariant forall j :: 0 <= j < i ==> results[j] == CheckSingle(base, compares[j])
    {
      results := results + [CheckSingle(base, compares[i])];
    }
  }
}
