/**
 * The identifier-translation overlay of src/mapping.ts: the dictionary state
 * that the `/api/mapping` response handler fills in, and `translate`, which
 * flattens five fixed categories of that dictionary into one overlay (a later
 * category overwrites an earlier one) and looks an identifier up in it.
 *
 * The module-level `mappingData`/`mappingError` refs become the fields of a
 * MappingState object; Vue's `computed` becomes re-evaluating Translate against
 * the current state.
 */
module Mapping {
  import opened Wrappers
  import Decimal

  /** category name -> (identifier -> display name) */
  type Dictionary = map<string, map<string, string>>

  /** The categories `translate` consults, in the order it merges them. */
  const Categories: seq<string> := ["character", "entity", "missionType", "resource", "weapon"]

  /** The response body of `/api/mapping`. */
  datatype MappingResponse = MappingResponse(code: int, message: string, data: Dictionary)

  /** `dictionary[category]`; iterating an absent category with `for...in` visits nothing. */
  function CategoryOf(d: Dictionary, category: string): map<string, string> {
    if category in d then d[category] else map[]
  }

  /** The overlay of the categories `cats`, merged from first to last; a later one overwrites. */
  function OverlayOf(d: Dictionary, cats: seq<string>): map<string, string> {
    if cats == [] then map[]
    else OverlayOf(d, cats[..|cats| - 1]) + CategoryOf(d, cats[|cats| - 1])
  }

  /** `combinedMapping` of `translate`. */
  function Overlay(d: Dictionary): map<string, string> {
    OverlayOf(d, Categories)
  }

  /** What `translate(source)` evaluates to for the dictionary state `data`. */
  function Translation(data: Option<Dictionary>, source: Option<string>): string {
    match source
    case None => ""
    case Some(s) =>
      if data.Some? && s in Overlay(data.value) then Overlay(data.value)[s] else s
  }

  /** `API error: ${json.code} ${json.message}` */
  function ApiErrorMessage(code: int, message: string): string {
    "API error: " + Decimal.IntText(code) + " " + message
  }

  /** `HTTP error: ${reason}`, with the rejection reason already rendered as text. */
  function HttpErrorMessage(reason: string): string {
    "HTTP error: " + reason
  }

  /** The response code recorded in an API error message. */
  function ApiErrorCode(error: string): Option<int> {
    var prefix := "API error: ";
    if |error| < |prefix| || error[..|prefix|] != prefix then None
    else
      var r := Decimal.ReadInt(error[|prefix|..]);
      if r.Some? && |r.value.1| > 0 && r.value.1[0] == ' ' then Some(r.value.0) else None
  }

  /** `translate` builds `combinedMapping` category by category. */
  method CombinedMapping(d: Dictionary) returns (combined: map<string, string>)
    ensures combined == Overlay(d)
  {
    combined := map[];
    for n := 0 to |Categories|
      invariant combined == OverlayOf(d, Categories[..n])
    {
      combined := MergeCategory(combined, CategoryOf(d, Categories[n]));
      assert Categories[..n + 1][..n] == Categories[..n];
    }
    assert Categories[..|Categories|] == Categories;
  }

  /** The inner `for...in`: copies the category into `combined` key by key, overwriting. */
  method MergeCategory(combined: map<string, string>, names: map<string, string>)
    returns (merged: map<string, string>)
    ensures merged == combined + names
  {
    merged := combined;
    var pending := names.Keys;
    while pending != {}
      invariant pending <= names.Keys
      invariant merged == combined + map id | id in names.Keys - pending :: names[id]
    {
      var id :| id in pending;
      merged := merged[id := names[id]];
      pending := pending - {id};
    }
    assert (map id | id in names.Keys - {} :: names[id]) == names;
  }

  /** The process-wide dictionary state: `mappingData` and `mappingError`. */
  class MappingState {
    var mappingData: Option<Dictionary>
    var mappingError: Option<string>

    /** Both refs start out `null`. */
    constructor ()
      ensures mappingData == None && mappingError == None
    {
      mappingData := None;
      mappingError := None;
    }

    /** The `.then` handler of the fetch: code 200 stores the data, any other code records an error. */
    method HandleResponse(json: MappingResponse)
      modifies this
      ensures json.code != 200 ==> mappingError == Some(ApiErrorMessage(json.code, json.message))
                                   && mappingData == old(mappingData)
      ensures json.code == 200 ==> mappingData == Some(json.data) && mappingError == old(mappingError)
    {
      if json.code != 200 {
        mappingError := Some(ApiErrorMessage(json.code, json.message));
      } else {
        mappingData := Some(json.data);
      }
    }

    /** The `.catch` handler of the fetch: records the transport failure, keeps the data. */
    method HandleTransportError(reason: string)
      modifies this
      ensures mappingError == Some(HttpErrorMessage(reason)) && mappingData == old(mappingData)
    {
      mappingError := Some(HttpErrorMessage(reason));
    }

    /** The value of `translate(source)` against the current state. */
    method Translate(source: Option<string>) returns (r: string)
      ensures r == Translation(mappingData, source)
    {
      if mappingData.None? {
        r := if source.None? then "" else source.value;
      } else {
        var combined := CombinedMapping(mappingData.value);
        if source.None? {
          r := "";
        } else if source.value in combined {
          r := combined[source.value];
        } else {
          r := source.value;
        }
      }
    }
  }

  // ---------------------------------------------------------------------------
  // Properties of the overlay and of the translation

  /**
   * An identifier is in the overlay exactly when one of the merged categories
   * holds it, and its value there is the one of the LAST category that holds it.
   */
  lemma {:induction false} OverlayLastWins(d: Dictionary, cats: seq<string>, id: string)
    ensures id in OverlayOf(d, cats) <==> exists i :: 0 <= i < |cats| && id in CategoryOf(d, cats[i])
    ensures forall i :: 0 <= i < |cats| && id in CategoryOf(d, cats[i])
                        && (forall j :: i < j < |cats| ==> id !in CategoryOf(d, cats[j]))
                        ==> id in OverlayOf(d, cats) && OverlayOf(d, cats)[id] == CategoryOf(d, cats[i])[id]
  {
    if cats != [] {
      var init := cats[..|cats| - 1];
      OverlayLastWins(d, init, id);
      forall i | 0 <= i < |init| ensures init[i] == cats[i] { }
      if id in OverlayOf(d, cats) && id !in CategoryOf(d, cats[|cats| - 1]) {
        var i :| 0 <= i < |init| && id in CategoryOf(d, init[i]);
        assert id in CategoryOf(d, cats[i]);
      }
    }
  }

  /** The overlay depends on nothing but the categories it merges. */
  lemma {:induction false} OverlayOnlyReadsListed(d1: Dictionary, d2: Dictionary, cats: seq<string>)
    requires forall c :: c in cats ==> CategoryOf(d1, c) == CategoryOf(d2, c)
    ensures OverlayOf(d1, cats) == OverlayOf(d2, cats)
  {
    if cats != [] {
      var init := cats[..|cats| - 1];
      forall c | c in init ensures CategoryOf(d1, c) == CategoryOf(d2, c) {
        var i :| 0 <= i < |init| && init[i] == c;
        assert cats[i] == c;
      }
      OverlayOnlyReadsListed(d1, d2, init);
      assert cats[|cats| - 1] in cats;
    }
  }

  /** A key of the dictionary other than the five categories is ignored. */
  lemma OtherKeysIgnored(d: Dictionary, key: string, names: map<string, string>)
    requires key !in Categories
    ensures Overlay(d[key := names]) == Overlay(d)
    ensures Overlay(d - {key}) == Overlay(d)
  {
    OverlayOnlyReadsListed(d[key := names], d, Categories);
    OverlayOnlyReadsListed(d - {key}, d, Categories);
  }

  /** A category missing from the dictionary contributes what an empty one would: nothing. */
  lemma AbsentCategoryContributesNothing(d: Dictionary, category: string)
    requires category !in d
    ensures Overlay(d) == Overlay(d[category := map[]])
  {
    OverlayOnlyReadsListed(d, d[category := map[]], Categories);
  }

  /** `translate(undefined)` is the empty string, whatever the state. */
  lemma UndefinedTranslatesToEmpty(data: Option<Dictionary>)
    ensures Translation(data, None) == ""
  {
  }

  /** Before the dictionary arrives (or after it failed), every identifier is shown as is. */
  lemma UnloadedIsIdentity(s: string)
    ensures Translation(None, Some(s)) == s
  {
  }

  /**
   * With the dictionary loaded, an identifier held by none of the five categories
   * is shown as is; otherwise it is shown as the value the last category holding
   * it gives.
   */
  lemma LoadedTranslation(d: Dictionary, s: string, i: nat)
    requires i < |Categories|
    ensures (forall c :: c in Categories ==> s !in CategoryOf(d, c)) ==> Translation(Some(d), Some(s)) == s
    ensures s in CategoryOf(d, Categories[i])
            && (forall j :: i < j < |Categories| ==> s !in CategoryOf(d, Categories[j]))
            ==> Translation(Some(d), Some(s)) == CategoryOf(d, Categories[i])[s]
  {
    OverlayLastWins(d, Categories, s);
  }

  /** The result for a defined identifier is the identifier itself or a value stored under it. */
  lemma TranslationOrigin(data: Option<Dictionary>, s: string)
    ensures var r := Translation(data, Some(s));
            r == s || (data.Some? && exists c :: c in Categories && s in CategoryOf(data.value, c)
                                                 && r == CategoryOf(data.value, c)[s])
  {
    if data.Some? && s in Overlay(data.value) {
      var d := data.value;
      OverlayLastWins(d, Categories, s);
      var i :| 0 <= i < |Categories| && s in CategoryOf(d, Categories[i]);
      var last := LastHolder(d, s, i);
      assert Categories[last] in Categories;
    }
  }

  /** The index of the last category that holds `s`, searching from a known holder `i` on. */
  lemma {:induction false} LastHolder(d: Dictionary, s: string, i: nat) returns (last: nat)
    requires i < |Categories| && s in CategoryOf(d, Categories[i])
    ensures i <= last < |Categories| && s in CategoryOf(d, Categories[last])
    ensures forall j :: last < j < |Categories| ==> s !in CategoryOf(d, Categories[j])
    decreases |Categories| - i
  {
    if exists j :: i < j < |Categories| && s in CategoryOf(d, Categories[j]) {
      var j :| i < j < |Categories| && s in CategoryOf(d, Categories[j]);
      last := LastHolder(d, s, j);
    } else {
      last := i;
    }
  }

  /** The example of a shared identifier: "weapon" is merged after "character", so it wins. */
  lemma LaterCategoryWinsExample()
    ensures Translation(Some(map["character" := map["W1" := "Conflict"], "weapon" := map["W1" := "Laser"]]),
                        Some("W1")) == "Laser"
  {
    var d := map["character" := map["W1" := "Conflict"], "weapon" := map["W1" := "Laser"]];
    assert Categories[4] == "weapon";
    LoadedTranslation(d, "W1", 4);
  }

  /** The error message of a failed response carries its code, recoverable from the text. */
  lemma ApiErrorCodeRoundTrip(code: int, message: string)
    ensures ApiErrorCode(ApiErrorMessage(code, message)) == Some(code)
  {
    var prefix := "API error: ";
    var e := ApiErrorMessage(code, message);
    var rest := " " + message;
    assert e == prefix + (Decimal.IntText(code) + rest);
    assert e[..|prefix|] == prefix;
    assert e[|prefix|..] == Decimal.IntText(code) + rest;
    Decimal.ReadIntText(code, rest);
  }

  // ---------------------------------------------------------------------------
  // `source in combinedMapping` as written

  /** The names a plain object `{}` answers to through `Object.prototype`. */
  const ObjectPrototypeNames: set<string> := {
    "constructor", "hasOwnProperty", "isPrototypeOf", "propertyIsEnumerable",
    "toLocaleString", "toString", "valueOf", "__proto__",
    "__defineGetter__", "__defineSetter__", "__lookupGetter__", "__lookupSetter__"
  }

  /** What the computed value of `translate` holds: a string, or a member inherited from `Object.prototype`. */
  datatype Rendered = Text(text: string) | InheritedMember(name: string)

  /**
   * `translate` exactly as the source writes it. `combinedMapping` is a plain
   * object, so `source in combinedMapping` is also true for the names it inherits,
   * and then `combinedMapping[source]` is the inherited member, not a string;
   * assigning `combinedMapping["__proto__"]` a string stores nothing.
   */
  function TranslationAsWritten(data: Option<Dictionary>, source: Option<string>): Rendered {
    match source
    case None => Text("")
    case Some(s) =>
      if data.None? then Text(s)
      else
        var own := Overlay(data.value) - {"__proto__"};
        if s in own then Text(own[s])
        else if s in ObjectPrototypeNames then InheritedMember(s)
        else Text(s)
  }

  /**
   * With a loaded dictionary that does not hold "constructor", the source yields
   * the inherited `Object` constructor instead of the identifier; Translation
   * returns the identifier.
   */
  lemma InheritedNameCounterexample()
    ensures TranslationAsWritten(Some(map[]), Some("constructor")) == InheritedMember("constructor")
    ensures Translation(Some(map[]), Some("constructor")) == "constructor"
  {
    assert "constructor" !in Overlay(map[]) by {
      OverlayLastWins(map[], Categories, "constructor");
    }
  }

  /** For every other identifier the source and Translation agree. */
  lemma AsWrittenAgreesOffPrototype(data: Option<Dictionary>, source: Option<string>)
    requires source.None? || source.value !in ObjectPrototypeNames
    ensures TranslationAsWritten(data, source) == Text(Translation(data, source))
  {
  }
}
