/**
 * The language entity: identity, metadata and an immutable translation table
 * (key to lines), plus three write-once caches that `lines`, `line` and
 * `custom` fill on first use. Missing keys are resolved by the platform the
 * language is bound to; every such call is recorded, so that the contracts
 * can say when the platform is consulted and when it is not.
 */
module Languages {
  import opened Wrappers
  import Text
  import Durations

  /** A compiled date-time pattern. Like `java.time.format.DateTimeFormatter`
      it has no value equality: two formatters are equal only when they are
      the same object. Formatting itself is not part of this model. */
  class Formatter {
    const pattern: string

    constructor (pattern: string)
      ensures this.pattern == pattern
    {
      this.pattern := pattern;
    }
  }

  /** The platform's missing-key hook: `resolve` is the substitute lines it
      gives for a language and a key, and `calls` records every invocation in
      order (the hook may log, so invocations are observable). */
  class Platform {
    const resolve: (Language, string) -> seq<string>
    var calls: seq<(Language, string)>

    constructor (resolve: (Language, string) -> seq<string>)
      ensures this.resolve == resolve && calls == []
    {
      this.resolve := resolve;
      calls := [];
    }

    method MissingKey(language: Language, key: string) returns (lines: seq<string>)
      modifies this`calls
      ensures lines == resolve(language, key)
      ensures calls == old(calls) + [(language, key)]
    {
      lines := resolve(language, key);
      calls := calls + [(language, key)];
    }
  }

  /** The `IllegalArgumentException` of the constructor, with the rejected line. */
  datatype LineError = ContainsLF(line: string) | ContainsCR(line: string)

  /** The thrown exception of `custom` for a null key. */
  datatype NullPointer = NullPointer

  predicate SingleLine(line: string)
  {
    Text.LF !in line && Text.CR !in line
  }

  /** No line contains a line feed or a carriage return. */
  predicate ValidLines(lines: seq<string>)
  {
    forall i :: 0 <= i < |lines| ==> SingleLine(lines[i])
  }

  /** No line of any key contains a line feed or a carriage return. */
  predicate ValidTable(data: map<string, seq<string>>)
  {
    forall key :: key in data ==> ValidLines(data[key])
  }

  /** The error quotes the first line, in list order, that holds a line feed
      or a carriage return, and the character it contains; a line holding both
      is reported for its line feed. */
  predicate BlamesLine(lines: seq<string>, e: LineError)
  {
    && (exists i :: 0 <= i < |lines| && lines[i] == e.line && ValidLines(lines[..i]))
    && match e
       case ContainsLF(line) => Text.LF in line
       case ContainsCR(line) => Text.LF !in line && Text.CR in line
  }

  /** Only one error blames a list of lines: its first bad line, reported for
      its line feed if it has one and otherwise for its carriage return. */
  lemma BlamesFirstLine(lines: seq<string>, e1: LineError, e2: LineError)
    ensures BlamesLine(lines, e1) && BlamesLine(lines, e2) ==> e1 == e2
  {
    if BlamesLine(lines, e1) && BlamesLine(lines, e2) {
      var i1 :| 0 <= i1 < |lines| && lines[i1] == e1.line && ValidLines(lines[..i1]);
      var i2 :| 0 <= i2 < |lines| && lines[i2] == e2.line && ValidLines(lines[..i2]);
      assert forall j :: 0 <= j < i1 ==> lines[..i1][j] == lines[j];
      assert forall j :: 0 <= j < i2 ==> lines[..i2][j] == lines[j];
      assert !SingleLine(lines[i1]) && !SingleLine(lines[i2]);
      assert i1 == i2;
    }
  }

  /** The error quotes a rejected line of some key of the table. */
  ghost predicate Blames(data: map<string, seq<string>>, e: LineError)
  {
    exists key :: key in data && BlamesLine(data[key], e)
  }

  /** The inner loop of the constructor's copy: each line is checked for LF,
      then for CR, and copied; the first bad line aborts. */
  method CopyLines(lines: seq<string>) returns (r: Result<seq<string>, LineError>)
    ensures r.Ok? <==> ValidLines(lines)
    ensures r.Ok? ==> r.value == lines
    ensures r.Err? ==> BlamesLine(lines, r.error)
  {
    var copy: seq<string> := [];
    var i := 0;
    while i < |lines|
      invariant 0 <= i <= |lines|
      invariant copy == lines[..i]
      invariant forall j :: 0 <= j < i ==> SingleLine(lines[j])
    {
      assert ValidLines(lines[..i]);
      var line := lines[i];
      if Text.LF in line {
        return Err(ContainsLF(line));
      }
      if Text.CR in line {
        return Err(ContainsCR(line));
      }
      copy := copy + [line];
      i := i + 1;
    }
    assert copy == lines;
    return Ok(copy);
  }

  /** The validating deep copy of the constructor: every key's lines are
      copied by `CopyLines`; the first bad line aborts the whole copy. */
  method CopyTable(data: map<string, seq<string>>) returns (r: Result<map<string, seq<string>>, LineError>)
    ensures r.Ok? <==> ValidTable(data)
    ensures r.Ok? ==> r.value == data
    ensures r.Err? ==> Blames(data, r.error)
  {
    var newData: map<string, seq<string>> := map[];
    var keys := data.Keys;
    while keys != {}
      invariant keys <= data.Keys
      invariant newData.Keys == data.Keys - keys
      invariant forall key :: key in newData ==> newData[key] == data[key] && ValidLines(data[key])
      decreases |keys|
    {
      var key :| key in keys;
      var copied := CopyLines(data[key]);
      if copied.Err? {
        return Err(copied.error);
      }
      newData := newData[key := copied.value];
      keys := keys - {key};
    }
    return Ok(newData);
  }

  class Language {
    const id: string
    const name: string
    const ids: set<string>
    const authors: seq<string>
    const data: map<string, seq<string>>
    const shortDateTime: Formatter
    const fullDateTime: Formatter
    const platform: Platform

    var linesCache: map<string, seq<string>>
    var lineCache: map<string, string>
    var customCache: map<object, object>

    /** The key is answered from the table: present with at least one line. */
    predicate Served(key: string)
    {
      key in data && data[key] != []
    }

    /** The lines a cache miss computes for the key: the table's lines when it
        serves the key, otherwise the platform's substitute. */
    function Translation(key: string): (lines: seq<string>)
      ensures Served(key) ==> lines == data[key]
      ensures !Served(key) ==> lines == platform.resolve(this, key)
    {
      if Served(key) then data[key] else platform.resolve(this, key)
    }

    /** The table is free of line breaks and every cached answer is the one a
        miss would compute now, so no cached answer can ever change. */
    ghost predicate Valid()
      reads this
    {
      && ValidTable(data)
      && (forall key :: key in linesCache ==> linesCache[key] == Translation(key))
      && (forall key :: key in lineCache ==> lineCache[key] == Text.Join(Translation(key)))
    }

    /** The platform calls one resolution of the key makes: none when the
        answer is cached or the table serves the key, else exactly one. */
    function Consulted(key: string, cached: bool): (calls: seq<(Language, string)>)
      ensures |calls| <= 1
      ensures calls == [] <==> cached || Served(key)
      ensures key in data ==> OnlyEmptyTableKeys(calls)
    {
      if cached || Served(key) then [] else [(this, key)]
    }

    /** The allocation step of the constructor, for an already validated table. */
    constructor (id: string, name: string, ids: set<string>, authors: seq<string>,
                 data: map<string, seq<string>>, shortDateTime: Formatter, fullDateTime: Formatter,
                 platform: Platform)
      requires ValidTable(data)
      ensures this.id == id && this.name == name && this.ids == ids && this.authors == authors
      ensures this.data == data && this.shortDateTime == shortDateTime && this.fullDateTime == fullDateTime
      ensures this.platform == platform
      ensures linesCache == map[] && lineCache == map[] && customCache == map[]
      ensures Valid()
    {
      this.id := id;
      this.name := name;
      this.ids := ids;
      this.authors := authors;
      this.data := data;
      this.shortDateTime := shortDateTime;
      this.fullDateTime := fullDateTime;
      this.platform := platform;
      linesCache := map[];
      lineCache := map[];
      customCache := map[];
    }

    /** `new Language(...)`: fails on a line with LF or CR, otherwise yields a
        language holding exactly the given table, with empty caches. */
    static method Create(id: string, name: string, ids: set<string>, authors: seq<string>,
                         data: map<string, seq<string>>, shortDateTime: Formatter, fullDateTime: Formatter,
                         platform: Platform)
      returns (r: Result<Language, LineError>)
      ensures r.Ok? <==> ValidTable(data)
      ensures r.Err? ==> Blames(data, r.error)
      ensures r.Ok? ==> fresh(r.value) && r.value.Valid()
      ensures r.Ok? ==> r.value.id == id && r.value.name == name && r.value.ids == ids && r.value.authors == authors
      ensures r.Ok? ==> r.value.data == data && r.value.data.Keys == data.Keys
      ensures r.Ok? ==> r.value.shortDateTime == shortDateTime && r.value.fullDateTime == fullDateTime
      ensures r.Ok? ==> r.value.platform == platform
      ensures r.Ok? ==> r.value.linesCache == map[] && r.value.lineCache == map[] && r.value.customCache == map[]
    {
      var copied :- CopyTable(data);
      var language := new Language(id, name, ids, authors, copied, shortDateTime, fullDateTime, platform);
      return Ok(language);
    }

    /** `lines(key)`: the cached lines, or else the table's lines (or the
        platform's substitute), cached from now on. */
    method Lines(key: string) returns (lines: seq<string>)
      requires Valid()
      modifies this`linesCache, platform`calls
      ensures Valid()
      ensures lines == Translation(key)
      ensures key in old(linesCache) ==> lines == old(linesCache)[key]
      ensures linesCache == old(linesCache)[key := lines]
      ensures platform.calls == old(platform.calls) + Consulted(key, key in old(linesCache))
      ensures lineCache == old(lineCache) && customCache == old(customCache)
    {
      if key in linesCache {
        lines := linesCache[key];
        return;
      }
      if key !in data || data[key] == [] {
        lines := platform.MissingKey(this, key);
      } else {
        lines := data[key];
      }
      linesCache := linesCache[key := lines];
    }

    /** `line(key)`: as `lines`, but the lines joined with line feeds, in a
        cache of its own. */
    method Line(key: string) returns (line: string)
      requires Valid()
      modifies this`lineCache, platform`calls
      ensures Valid()
      ensures line == Text.Join(Translation(key))
      ensures key in old(lineCache) ==> line == old(lineCache)[key]
      ensures lineCache == old(lineCache)[key := line]
      ensures platform.calls == old(platform.calls) + Consulted(key, key in old(lineCache))
      ensures linesCache == old(linesCache) && customCache == old(customCache)
    {
      if key in lineCache {
        line := lineCache[key];
        return;
      }
      if key !in data || data[key] == [] {
        var substitute := platform.MissingKey(this, key);
        line := Text.Join(substitute);
      } else {
        line := Text.Join(data[key]);
      }
      lineCache := lineCache[key := line];
    }

    /** `duration(duration, precise)` for a duration of `millis` milliseconds:
        negative durations read the `unknown` key; others fill the template of
        the bucket `Durations.TemplateKey` picks. */
    method Duration(millis: int, precise: bool) returns (text: string)
      requires Valid()
      modifies this`lineCache, platform`calls
      ensures Valid()
      ensures millis < 0 ==> text == Text.Join(Translation("unknown"))
      ensures millis >= 0 ==>
        var parts := Durations.PartsOf(millis);
        text == Durations.Fill(Text.Join(Translation(Durations.TemplateKey(parts, precise))), parts)
      ensures lineCache.Keys == old(lineCache.Keys) + {DurationKey(millis, precise)}
      ensures forall key :: key in old(lineCache) ==> lineCache[key] == old(lineCache)[key]
      ensures lineCache == old(lineCache)[DurationKey(millis, precise) := Text.Join(Translation(DurationKey(millis, precise)))]
      ensures platform.calls == old(platform.calls) + Consulted(DurationKey(millis, precise), DurationKey(millis, precise) in old(lineCache))
      ensures linesCache == old(linesCache) && customCache == old(customCache)
    {
      if millis < 0 {
        text := Line("unknown");
        return;
      }
      var parts := Durations.PartsOf(millis);
      var key := Durations.TemplateKey(parts, precise);
      var template := Line(key);
      text := Durations.Fill(template, parts);
    }

    /** The key `Duration` resolves. */
    function DurationKey(millis: int, precise: bool): string
    {
      if millis < 0 then "unknown" else Durations.TemplateKey(Durations.PartsOf(millis), precise)
    }

    /** `custom(key, loader)`: the value cached for the key (by identity), or
        else the loader's value, cached unless it is null. A null key is
        rejected, as by `ConcurrentHashMap`. */
    method Custom(key: object?, loader: () -> object?) returns (r: Result<object?, NullPointer>)
      modifies this`customCache
      ensures key == null ==> r == Err(NullPointer) && customCache == old(customCache)
      ensures key != null && key in old(customCache) ==>
        r == Ok(old(customCache)[key]) && customCache == old(customCache)
      ensures key != null && key !in old(customCache) ==>
        r == Ok(loader()) &&
        customCache == if loader() == null then old(customCache) else old(customCache)[key := loader()]
      ensures linesCache == old(linesCache) && lineCache == old(lineCache)
    {
      if key == null {
        return Err(NullPointer);
      }
      if key in customCache {
        return Ok(customCache[key]);
      }
      var value := loader();
      if value != null {
        customCache := customCache[key := value];
      }
      return Ok(value);
    }

    /** Every recorded call is this language asking about a table key that
        has no lines. */
    predicate OnlyEmptyTableKeys(calls: seq<(Language, string)>)
    {
      forall i :: 0 <= i < |calls| ==> AsksEmptyTableKey(calls[i])
    }

    predicate AsksEmptyTableKey(call: (Language, string))
    {
      call.0 == this && call.1 in data && data[call.1] == []
    }

    /** The number of platform calls `preCache` makes for a key, given the
        keys the two caches held before: one per cache lacking the key, when
        the table lists the key with no lines; none otherwise. */
    function MissCount(key: string, linesKeys: set<string>, lineKeys: set<string>): nat
    {
      if key in data && data[key] == [] then
        (if key in linesKeys then 0 else 1) + (if key in lineKeys then 0 else 1)
      else 0
    }

    /** One step of `preCache`: `lines(key)` then `line(key)`. */
    method Warm(key: string)
      requires Valid()
      modifies this`linesCache, this`lineCache, platform`calls
      ensures Valid()
      ensures linesCache.Keys == old(linesCache.Keys) + {key}
      ensures lineCache.Keys == old(lineCache.Keys) + {key}
      ensures platform.calls == old(platform.calls) + (Consulted(key, key in old(linesCache)) + Consulted(key, key in old(lineCache)))
    {
      ghost var viaLines, viaLine := Consulted(key, key in linesCache), Consulted(key, key in lineCache);
      var ignoredLines := Lines(key);
      var ignoredLine := Line(key);
      assert platform.calls == old(platform.calls) + (viaLines + viaLine);
    }

    /** What `preCache` has called so far: only table keys with no lines,
        each as often as `MissCount` allows once its key is warmed, and not
        at all before. */
    ghost predicate CallsSoFar(added: seq<(Language, string)>, keys: set<string>,
                         linesKeys: set<string>, lineKeys: set<string>)
    {
      && (forall i :: 0 <= i < |added| ==> AsksEmptyTableKey(added[i]))
      && (forall k :: multiset(added)[(this, k)] == if k in keys then 0 else MissCount(k, linesKeys, lineKeys))
    }

    /** Warming one more table key keeps `CallsSoFar`. */
    lemma CallsSoFarStep(added: seq<(Language, string)>, key: string, keys: set<string>,
                         linesKeys: set<string>, lineKeys: set<string>)
      requires key in keys && key in data
      requires CallsSoFar(added, keys, linesKeys, lineKeys)
      ensures CallsSoFar(added + (Consulted(key, key in linesKeys) + Consulted(key, key in lineKeys)),
                         keys - {key}, linesKeys, lineKeys)
    {
      var step := Consulted(key, key in linesKeys) + Consulted(key, key in lineKeys);
      assert multiset(added + step) == multiset(added) + multiset(step);
      forall k ensures multiset(step)[(this, k)] == if k == key then MissCount(key, linesKeys, lineKeys) else 0 {
      }
      forall i | 0 <= i < |added + step| ensures AsksEmptyTableKey((added + step)[i]) {
        if i >= |added| {
          assert (added + step)[i] == step[i - |added|];
        }
      }
    }

    /** The calls `preCache` appends, once every table key is warmed: only
        table keys with no lines, each as often as `MissCount` says, and none
        at all when both caches already held every table key. */
    lemma Appended(calls0: seq<(Language, string)>, added: seq<(Language, string)>,
                   linesKeys: set<string>, lineKeys: set<string>)
      requires CallsSoFar(added, {}, linesKeys, lineKeys)
      ensures (calls0 + added)[..|calls0|] == calls0
      ensures forall call :: call in (calls0 + added)[|calls0|..] ==> AsksEmptyTableKey(call)
      ensures forall key :: multiset((calls0 + added)[|calls0|..])[(this, key)] == MissCount(key, linesKeys, lineKeys)
      ensures forall call :: call in (calls0 + added)[|calls0|..] ==> call.1 !in linesKeys || call.1 !in lineKeys
      ensures data.Keys <= linesKeys && data.Keys <= lineKeys ==> calls0 + added == calls0
    {
      assert (calls0 + added)[|calls0|..] == added;
      forall call | call in added ensures call.1 !in linesKeys || call.1 !in lineKeys {
        assert multiset(added)[(this, call.1)] > 0;
      }
      if data.Keys <= linesKeys && data.Keys <= lineKeys {
        forall call ensures multiset(added)[call] == 0 {
          if call.0 != this {
            assert call !in added;
          }
        }
        assert multiset(added) == multiset{};
        assert |added| == |multiset(added)| == 0;
      }
    }

    /** The state of `preCache`'s loop with `keys` still to warm: the
        caches gained exactly the warmed table keys, and the platform calls
        grew by `added`, which `CallsSoFar` describes. */
    ghost predicate Warming(keys: set<string>, linesKeys: set<string>, lineKeys: set<string>,
                            calls0: seq<(Language, string)>, added: seq<(Language, string)>)
      reads this, platform
    {
      && keys <= data.Keys
      && Valid()
      && (forall key :: key in linesCache <==> key in linesKeys || (key in data && key !in keys))
      && (forall key :: key in lineCache <==> key in lineKeys || (key in data && key !in keys))
      && platform.calls == calls0 + added
      && CallsSoFar(added, keys, linesKeys, lineKeys)
    }

    /** One iteration of `preCache`'s loop: `Warm` one remaining key. */
    method WarmNext(key: string, ghost keys: set<string>, ghost linesKeys: set<string>, ghost lineKeys: set<string>,
                    ghost calls0: seq<(Language, string)>, ghost added: seq<(Language, string)>)
      returns (ghost added': seq<(Language, string)>)
      requires key in keys
      requires Warming(keys, linesKeys, lineKeys, calls0, added)
      modifies this`linesCache, this`lineCache, platform`calls
      ensures Warming(keys - {key}, linesKeys, lineKeys, calls0, added')
    {
      assert key in linesCache <==> key in linesKeys;
      assert key in lineCache <==> key in lineKeys;
      ghost var step := Consulted(key, key in linesKeys) + Consulted(key, key in lineKeys);
      Warm(key);
      Text.AppendAssociates(calls0, added, step);
      CallsSoFarStep(added, key, keys, linesKeys, lineKeys);
      added' := added + step;
    }

    /** `preCache()`: warms both caches for every key of the table. Afterwards
        both caches hold exactly their old keys plus the table's keys and the
        cached answers are still the ones a miss would compute. The new
        platform calls are, in some order, one for each cache that lacked a
        table key whose line list is empty, and nothing else; so a language
        whose caches already hold every table key calls nothing. */
    method PreCache()
      requires Valid()
      modifies this`linesCache, this`lineCache, platform`calls
      ensures Valid()
      ensures forall key :: key in linesCache <==> key in old(linesCache) || key in data
      ensures forall key :: key in lineCache <==> key in old(lineCache) || key in data
      ensures |old(platform.calls)| <= |platform.calls|
      ensures platform.calls[..|old(platform.calls)|] == old(platform.calls)
      ensures forall call :: call in platform.calls[|old(platform.calls)|..] ==> AsksEmptyTableKey(call)
      ensures forall call :: call in platform.calls[|old(platform.calls)|..] ==>
                call.1 !in old(linesCache) || call.1 !in old(lineCache)
      ensures forall key :: multiset(platform.calls[|old(platform.calls)|..])[(this, key)]
                            == MissCount(key, old(linesCache.Keys), old(lineCache.Keys))
      ensures data.Keys <= old(linesCache.Keys) && data.Keys <= old(lineCache.Keys) ==>
                platform.calls == old(platform.calls)
      ensures customCache == old(customCache)
    {
      ghost var linesKeys, lineKeys, calls0 := linesCache.Keys, lineCache.Keys, platform.calls;
      ghost var added: seq<(Language, string)> := [];
      var keys := data.Keys;
      while keys != {}
        invariant Warming(keys, linesKeys, lineKeys, calls0, added)
        decreases |keys|
      {
        var key :| key in keys;
        added := WarmNext(key, keys, linesKeys, lineKeys, calls0, added);
        keys := keys - {key};
      }
      Appended(calls0, added, linesKeys, lineKeys);
    }

    /** `equals`: same identity or all of id, name, ids, authors, formatters
        (by identity) and table equal; the caches and the platform play no
        part, and the identity shortcut changes no answer. */
    predicate Equals(other: Language): (r: bool)
      ensures r <==> (id == other.id && name == other.name && ids == other.ids && authors == other.authors
                      && shortDateTime == other.shortDateTime && fullDateTime == other.fullDateTime
                      && data == other.data)
    {
      this == other ||
      (id == other.id && name == other.name && ids == other.ids && authors == other.authors
       && shortDateTime == other.shortDateTime && fullDateTime == other.fullDateTime && data == other.data)
    }
  }

  /** `equals` is an equivalence: reflexive, symmetric and transitive. */
  lemma EqualsIsEquivalence(a: Language, b: Language, c: Language)
    ensures a.Equals(a)
    ensures a.Equals(b) ==> b.Equals(a)
    ensures a.Equals(b) && b.Equals(c) ==> a.Equals(c)
  {
  }

  /** For a key the table serves, `line` is the `lines` joined, and cutting
      it at the line feeds recovers `lines`: the two caches agree. */
  lemma LineAgreesWithLines(language: Language, key: string)
    requires ValidTable(language.data)
    requires language.Served(key)
    ensures Text.Split(Text.Join(language.Translation(key))) == language.Translation(key)
  {
    var lines := language.data[key];
    forall i | 0 <= i < |lines| ensures Text.LF !in lines[i] {
      assert SingleLine(lines[i]);
    }
    Text.SplitJoin(lines);
  }

  /** Two calls of `line` for the same key answer the same text, and the
      platform is consulted at most once, by the first. */
  method LineTwice(language: Language, key: string) returns (first: string, second: string)
    requires language.Valid()
    modifies language`lineCache, language.platform`calls
    ensures first == second
    ensures |language.platform.calls| <= |old(language.platform.calls)| + 1
    ensures key in old(language.lineCache) || language.Served(key) ==>
      language.platform.calls == old(language.platform.calls)
  {
    first := language.Line(key);
    second := language.Line(key);
  }
}
