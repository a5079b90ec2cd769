/**
 * The Gson deserializer of a language: a JSON object with the string members
 * `id`, `name`, `shortDateTime` and `fullDateTime`, the string arrays `ids`
 * and `authors`, and the object `data` whose values are a single string or
 * an array of strings. The tree is an abstract JSON value; a primitive
 * carries the text Gson's `getAsString` renders for it.
 */
module GsonAdapter {
  import opened Wrappers
  import Languages

  datatype Json =
    | JNull
    | JPrimitive(text: string)
    | JArray(elements: seq<Json>)
    | JObject(members: map<string, Json>)

  /** The `JsonParseException`s of the adapter. A bad `data` entry is not
      attributed to a key: the adapter names the first bad key in document
      order, and a `JObject` here is a map that keeps no order. */
  datatype DecodeError =
    | NotAnObject
    | ExpectedString(key: string)
    | ExpectedArray(key: string)
    | ExpectedObject(key: string)
    | NonStringElement(key: string)
    | InvalidDataEntry
    | InvalidPattern(key: string)

  /** Either the adapter's own rejection or the constructor's rejected line. */
  datatype DeserializeError = Malformed(cause: DecodeError) | BadLine(line: Languages.LineError)

  /** What the adapter hands to the `Language` constructor, with the two
      date-time patterns still uncompiled. */
  datatype Arguments = Arguments(id: string, name: string, ids: set<string>, authors: seq<string>,
                                 data: map<string, seq<string>>, shortPattern: string, fullPattern: string)

  /** `getAsString` of an element: the text of a primitive, nothing otherwise. */
  function AsString(e: Json): (r: Option<string>)
    ensures r.Some? <==> e.JPrimitive?
    ensures r.Some? ==> e == JPrimitive(r.value)
  {
    if e.JPrimitive? then Some(e.text) else None
  }

  /** `getString(json, key)`: the member's text; a missing or non-primitive
      member is rejected with the key. */
  function GetString(members: map<string, Json>, key: string): (r: Result<string, DecodeError>)
    ensures r.Ok? <==> key in members && members[key].JPrimitive?
    ensures r.Ok? ==> members[key] == JPrimitive(r.value)
    ensures r.Err? ==> r.error == ExpectedString(key)
  {
    if key in members && members[key].JPrimitive? then Ok(members[key].text) else Err(ExpectedString(key))
  }

  /** `getArray(json, key)`: the member's elements, or a rejection with the key. */
  function GetArray(members: map<string, Json>, key: string): (r: Result<seq<Json>, DecodeError>)
    ensures r.Ok? <==> key in members && members[key].JArray?
    ensures r.Ok? ==> members[key] == JArray(r.value)
    ensures r.Err? ==> r.error == ExpectedArray(key)
  {
    if key in members && members[key].JArray? then Ok(members[key].elements) else Err(ExpectedArray(key))
  }

  /** `getObject(json, key)`: the member's members, or a rejection with the key. */
  function GetObject(members: map<string, Json>, key: string): (r: Result<map<string, Json>, DecodeError>)
    ensures r.Ok? <==> key in members && members[key].JObject?
    ensures r.Ok? ==> members[key] == JObject(r.value)
    ensures r.Err? ==> r.error == ExpectedObject(key)
  {
    if key in members && members[key].JObject? then Ok(members[key].members) else Err(ExpectedObject(key))
  }

  /** Every element is a primitive. */
  predicate AllStrings(elements: seq<Json>)
  {
    forall i :: 0 <= i < |elements| ==> elements[i].JPrimitive?
  }

  /** The texts of the elements, in order, when all of them are primitives. */
  function StringsOf(elements: seq<Json>): (r: Option<seq<string>>)
    ensures r.Some? <==> AllStrings(elements)
    ensures r.Some? ==> |r.value| == |elements|
    ensures r.Some? ==> forall i :: 0 <= i < |elements| ==> elements[i] == JPrimitive(r.value[i])
    decreases |elements|
  {
    if |elements| == 0 then Some([])
    else
      var last := elements[|elements| - 1];
      match StringsOf(elements[..|elements| - 1])
      case None => None
      case Some(init) => if last.JPrimitive? then Some(init + [last.text]) else None
  }

  /** The `ids` array read into a hash set: the set of its texts, when all
      of its elements are strings. */
  function IdsOf(elements: seq<Json>): (r: Option<set<string>>)
    ensures r.Some? <==> AllStrings(elements)
    ensures r.Some? ==> forall s :: s in r.value <==> JPrimitive(s) in elements
  {
    match StringsOf(elements)
    case None => None
    case Some(texts) =>
      var ids := set s | s in texts;
      assert forall s :: s in ids <==> JPrimitive(s) in elements by {
        forall s ensures s in ids <==> JPrimitive(s) in elements {
          if JPrimitive(s) in elements {
            var i :| 0 <= i < |elements| && elements[i] == JPrimitive(s);
            assert texts[i] == s;
          }
        }
      }
      Some(ids)
  }

  /** Repeating an id in the array changes nothing: duplicates collapse. */
  lemma IdsCollapse(elements: seq<Json>, s: string)
    ensures IdsOf(elements + [JPrimitive(s), JPrimitive(s)]) == IdsOf(elements + [JPrimitive(s)])
  {
    var twice, once := elements + [JPrimitive(s), JPrimitive(s)], elements + [JPrimitive(s)];
    assert forall x :: x in twice <==> x in once;
    if AllStrings(once) {
      assert AllStrings(twice) by {
        forall i | 0 <= i < |twice| ensures twice[i].JPrimitive? {
          if i < |once| {
            assert twice[i] == once[i];
          }
        }
      }
      var fromTwice, fromOnce := IdsOf(twice).value, IdsOf(once).value;
      forall x ensures x in fromTwice <==> x in fromOnce {
        assert JPrimitive(x) in twice <==> JPrimitive(x) in once;
      }
      assert fromTwice == fromOnce;
    } else {
      var i :| 0 <= i < |once| && !once[i].JPrimitive?;
      assert twice[i] == once[i];
    }
  }

  /** The lines of one `data` entry: a primitive is one line, an array of
      primitives its texts in order; anything else is rejected. */
  function EntryLines(value: Json): (r: Option<seq<string>>)
    ensures r.Some? <==> value.JPrimitive? || (value.JArray? && AllStrings(value.elements))
    ensures value.JPrimitive? ==> r == Some([value.text])
    ensures value.JArray? ==> r == StringsOf(value.elements)
  {
    match value
    case JPrimitive(text) => Some([text])
    case JArray(elements) => StringsOf(elements)
    case _ => None
  }

  /** The decoded table: one entry per member, when every member is accepted. */
  function DataOf(members: map<string, Json>): (r: Option<map<string, seq<string>>>)
    ensures r.Some? <==> forall key :: key in members ==> EntryLines(members[key]).Some?
    ensures r.Some? ==> r.value.Keys == members.Keys
    ensures r.Some? ==> forall key :: key in members ==> EntryLines(members[key]) == Some(r.value[key])
  {
    if forall key :: key in members ==> EntryLines(members[key]).Some? then
      Some(map key | key in members :: EntryLines(members[key]).value)
    else None
  }

  function Require<T>(o: Option<T>, e: DecodeError): (r: Result<T, DecodeError>)
    ensures r.Ok? <==> o.Some?
    ensures r.Ok? ==> o == Some(r.value)
    ensures r.Err? ==> r.error == e
  {
    if o.Some? then Ok(o.value) else Err(e)
  }

  /** The steps of `deserialize` up to the constructor call, in the order
      `deserialize` takes them, so that the first failing check names the
      error: a non-object is rejected before anything else, and a bad `id`
      before any other member. Accepted patterns are valid ones. */
  function Decode(json: Json, validPattern: string -> bool): (r: Result<Arguments, DecodeError>)
    ensures !json.JObject? ==> r == Err(NotAnObject)
    ensures json.JObject? && !("id" in json.members && json.members["id"].JPrimitive?) ==>
              r == Err(ExpectedString("id"))
    ensures r.Ok? ==> validPattern(r.value.shortPattern) && validPattern(r.value.fullPattern)
  {
    if !json.JObject? then Err(NotAnObject)
    else
      var members := json.members;
      var id :- GetString(members, "id");
      var name :- GetString(members, "name");
      var idsArray :- GetArray(members, "ids");
      var ids :- Require(IdsOf(idsArray), NonStringElement("ids"));
      var authorsArray :- GetArray(members, "authors");
      var authors :- Require(StringsOf(authorsArray), NonStringElement("authors"));
      var dataObject :- GetObject(members, "data");
      var data :- Require(DataOf(dataObject), InvalidDataEntry);
      var shortPattern :- GetString(members, "shortDateTime");
      if !validPattern(shortPattern) then Err(InvalidPattern("shortDateTime"))
      else
        var fullPattern :- GetString(members, "fullDateTime");
        if !validPattern(fullPattern) then Err(InvalidPattern("fullDateTime"))
        else Ok(Arguments(id, name, ids, authors, data, shortPattern, fullPattern))
  }

  /** The documents the adapter accepts, stated member by member without
      reference to the order of the checks. */
  ghost predicate Accepted(json: Json, validPattern: string -> bool)
  {
    && json.JObject?
    && (forall key :: key in ["id", "name", "shortDateTime", "fullDateTime"] ==>
          key in json.members && json.members[key].JPrimitive?)
    && validPattern(json.members["shortDateTime"].text)
    && validPattern(json.members["fullDateTime"].text)
    && "ids" in json.members && json.members["ids"].JArray? && AllStrings(json.members["ids"].elements)
    && "authors" in json.members && json.members["authors"].JArray? && AllStrings(json.members["authors"].elements)
    && "data" in json.members && json.members["data"].JObject?
    && (forall key :: key in json.members["data"].members ==>
          var value := json.members["data"].members[key];
          value.JPrimitive? || (value.JArray? && AllStrings(value.elements)))
  }

  /** `Decode` succeeds on exactly the accepted documents. */
  lemma DecodeAcceptsExactly(json: Json, validPattern: string -> bool)
    ensures Decode(json, validPattern).Ok? <==> Accepted(json, validPattern)
  {
    if json.JObject? {
      assert "id" in ["id", "name", "shortDateTime", "fullDateTime"];
      assert "name" in ["id", "name", "shortDateTime", "fullDateTime"];
      assert "shortDateTime" in ["id", "name", "shortDateTime", "fullDateTime"];
      assert "fullDateTime" in ["id", "name", "shortDateTime", "fullDateTime"];
    }
  }

  /** On success every argument is read off the document: the four strings
      as they are, `ids` as the set of its strings, `authors` as its strings
      in order, and `data` with the same keys, a string as one line and an
      array as its strings in order. */
  lemma DecodeReadsDocument(json: Json, validPattern: string -> bool)
    requires Decode(json, validPattern).Ok?
    ensures json.JObject?
    ensures
      var a, m := Decode(json, validPattern).value, json.members;
      && m["id"] == JPrimitive(a.id) && m["name"] == JPrimitive(a.name)
      && m["shortDateTime"] == JPrimitive(a.shortPattern) && m["fullDateTime"] == JPrimitive(a.fullPattern)
      && (forall s :: s in a.ids <==> JPrimitive(s) in m["ids"].elements)
      && |a.authors| == |m["authors"].elements|
      && (forall i :: 0 <= i < |a.authors| ==> m["authors"].elements[i] == JPrimitive(a.authors[i]))
      && a.data.Keys == m["data"].members.Keys
      && (forall key :: key in a.data ==> EntryLines(m["data"].members[key]) == Some(a.data[key]))
  {
  }

  /** The string loop over `ids` or `authors` (and over the lines of an
      array `data` entry): the elements' texts in order, or nothing at the
      first element that is not a string. */
  method CollectStrings(elements: seq<Json>) returns (r: Option<seq<string>>)
    ensures r == StringsOf(elements)
  {
    var texts: seq<string> := [];
    for i := 0 to |elements|
      invariant StringsOf(elements[..i]) == Some(texts)
    {
      assert elements[..i + 1][..i] == elements[..i];
      var entry := AsString(elements[i]);
      if entry.None? {
        StringsOfPrefix(elements, i + 1);
        return None;
      }
      texts := texts + [entry.value];
    }
    assert elements[..|elements|] == elements;
    return Some(texts);
  }

  /** A non-string element anywhere makes the whole sequence fail. */
  lemma StringsOfPrefix(elements: seq<Json>, n: nat)
    requires n <= |elements| && StringsOf(elements[..n]).None?
    ensures StringsOf(elements).None?
  {
    var i :| 0 <= i < n && !elements[..n][i].JPrimitive?;
    assert !elements[i].JPrimitive?;
  }

  /** The loop over `ids`, adding each string to a hash set. */
  method CollectIds(elements: seq<Json>) returns (r: Option<set<string>>)
    ensures r == IdsOf(elements)
  {
    var ids: set<string> := {};
    for i := 0 to |elements|
      invariant StringsOf(elements[..i]).Some?
      invariant ids == (set s | s in StringsOf(elements[..i]).value)
    {
      assert elements[..i + 1][..i] == elements[..i];
      var entry := AsString(elements[i]);
      if entry.None? {
        StringsOfPrefix(elements, i + 1);
        return None;
      }
      ids := ids + {entry.value};
    }
    assert elements[..|elements|] == elements;
    return Some(ids);
  }

  /** The loop over the `data` object: each member is read by `EntryLines`
      and put into a hash map; the first rejected member aborts. */
  method CollectData(members: map<string, Json>) returns (r: Option<map<string, seq<string>>>)
    ensures r == DataOf(members)
  {
    var data: map<string, seq<string>> := map[];
    var keys := members.Keys;
    while keys != {}
      invariant keys <= members.Keys
      invariant data.Keys == members.Keys - keys
      invariant forall key :: key in data ==> EntryLines(members[key]) == Some(data[key])
      decreases |keys|
    {
      var key :| key in keys;
      var value := members[key];
      if value.JPrimitive? {
        data := data[key := [value.text]];
      } else if value.JArray? {
        var lines := CollectStrings(value.elements);
        if lines.None? {
          return None;
        }
        data := data[key := lines.value];
      } else {
        return None;
      }
      keys := keys - {key};
    }
    assert forall key :: key in members ==> EntryLines(members[key]).Some?;
    assert data == DataOf(members).value;
    return Some(data);
  }

  /** `deserialize` up to the constructor call, with its loops. */
  method DecodeArguments(json: Json, validPattern: string -> bool) returns (r: Result<Arguments, DecodeError>)
    ensures r == Decode(json, validPattern)
  {
    if !json.JObject? {
      return Err(NotAnObject);
    }
    var members := json.members;
    var id :- GetString(members, "id");
    var name :- GetString(members, "name");
    var idsArray :- GetArray(members, "ids");
    var ids := CollectIds(idsArray);
    if ids.None? {
      return Err(NonStringElement("ids"));
    }
    var authorsArray :- GetArray(members, "authors");
    var authors := CollectStrings(authorsArray);
    if authors.None? {
      return Err(NonStringElement("authors"));
    }
    var dataObject :- GetObject(members, "data");
    var data := CollectData(dataObject);
    if data.None? {
      return Err(InvalidDataEntry);
    }
    var shortPattern :- GetString(members, "shortDateTime");
    if !validPattern(shortPattern) {
      return Err(InvalidPattern("shortDateTime"));
    }
    var fullPattern :- GetString(members, "fullDateTime");
    if !validPattern(fullPattern) {
      return Err(InvalidPattern("fullDateTime"));
    }
    return Ok(Arguments(id, name, ids.value, authors.value, data.value, shortPattern, fullPattern));
  }

  /** `deserialize(element, type, ctx)`: decodes the document, compiles the
      two patterns and calls the validating `Language` constructor. The
      result is a new language holding exactly the decoded arguments, or the
      adapter's rejection, or the constructor's rejected line. */
  method Deserialize(json: Json, validPattern: string -> bool, platform: Languages.Platform)
    returns (r: Result<Languages.Language, DeserializeError>)
    ensures Decode(json, validPattern).Err? ==> r == Err(Malformed(Decode(json, validPattern).error))
    ensures Decode(json, validPattern).Ok? ==>
      var a := Decode(json, validPattern).value;
      && (r.Ok? <==> Languages.ValidTable(a.data))
      && (r.Err? ==> r.error.BadLine? && Languages.Blames(a.data, r.error.line))
      && (r.Ok? ==>
            && fresh(r.value) && r.value.Valid()
            && r.value.id == a.id && r.value.name == a.name && r.value.ids == a.ids
            && r.value.authors == a.authors && r.value.data == a.data
            && r.value.shortDateTime.pattern == a.shortPattern
            && r.value.fullDateTime.pattern == a.fullPattern
            && r.value.platform == platform
            && r.value.linesCache == map[] && r.value.lineCache == map[] && r.value.customCache == map[])
  {
    var decoded := DecodeArguments(json, validPattern);
    if decoded.Err? {
      return Err(Malformed(decoded.error));
    }
    var a := decoded.value;
    var shortDateTime := new Languages.Formatter(a.shortPattern);
    var fullDateTime := new Languages.Formatter(a.fullPattern);
    var created := Languages.Language.Create(a.id, a.name, a.ids, a.authors, a.data,
                                             shortDateTime, fullDateTime, platform);
    if created.Err? {
      return Err(BadLine(created.error));
    }
    return Ok(created.value);
  }
}
