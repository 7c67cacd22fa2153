/** The client-side shape check of a decoded `/analyze` response. */
module Validator {

  /** A decoded JSON value. */
  datatype Json =
    | JNull
    | JBool(b: bool)
    | JNumber(n: real)
    | JString(s: string)
    | JArray(items: seq<Json>)
    | JObject(fields: map<string, Json>)

  /** Outcome of the check: it returns true, returns false, or raises
      `TypeError` (a `key in result` test on a number, boolean or null). */
  datatype Verdict = Valid | Invalid | Raises

  /** Outcome of Python's `key in container`. */
  datatype Lookup = Found | Missing | NotAContainer

  const RequiredKeys: seq<string> := ["rank", "name", "similarity", "image_url"]

  /** `k` occurs in `s` starting at index `i`. */
  predicate OccursAt(k: string, s: string, i: int) {
    0 <= i <= |s| - |k| && s[i..i + |k|] == k
  }

  predicate IsSubstring(k: string, s: string) {
    exists i | 0 <= i <= |s| - |k| :: OccursAt(k, s, i)
  }

  /** `key in container`: key lookup in an object, element membership in an
      array, substring search in a string; any other value raises. */
  function Contains(container: Json, key: string): (r: Lookup)
    ensures r == NotAContainer <==> !(container.JObject? || container.JArray? || container.JString?)
    ensures container.JObject? ==> (r == Found <==> key in container.fields)
  {
    match container
    case JObject(fields) => if key in fields then Found else Missing
    case JArray(items) => if JString(key) in items then Found else Missing
    case JString(s) => if IsSubstring(key, s) then Found else Missing
    case _ => NotAContainer
  }

  /** Every required key is found in `e`. */
  predicate HasRequiredKeys(e: Json) {
    forall k | k in RequiredKeys :: Contains(e, k) == Found
  }

  /** `all(key in result for key in keys)`: false at the first missing key,
      raising at the first test that raises. */
  function AllKeys(result: Json, keys: seq<string>): (r: Verdict)
    ensures r == Valid <==> forall k | k in keys :: Contains(result, k) == Found
    ensures r == Raises <==> |keys| > 0 && Contains(result, keys[0]) == NotAContainer
  {
    if |keys| == 0 then Valid
    else
      match Contains(result, keys[0])
      case Found => AllKeys(result, keys[1..])
      case Missing => Invalid
      case NotAContainer => Raises
  }

  /** The loop over `results`: the verdict of the first element that fails,
      or true when none does. */
  function CheckResults(items: seq<Json>): (r: Verdict)
    ensures r == Valid <==> forall e | e in items :: HasRequiredKeys(e)
    ensures r == Raises ==> exists e | e in items :: Contains(e, RequiredKeys[0]) == NotAContainer
  {
    if |items| == 0 then Valid
    else
      var v := AllKeys(items[0], RequiredKeys);
      assert items == [items[0]] + items[1..];
      assert items[0] in items;
      if v == Valid then CheckResults(items[1..]) else v
  }

  /** `validate_response` on a decoded response object. */
  function ValidateResponse(data: map<string, Json>): (v: Verdict)
    ensures !("results" in data && data["results"].JArray?) ==> v == Invalid
    ensures "results" in data && data["results"] == JArray([]) ==> v == Valid
    ensures v == Valid <==>
              "results" in data && data["results"].JArray? &&
              forall e | e in data["results"].items :: HasRequiredKeys(e)
  {
    if "results" in data && data["results"].JArray? then CheckResults(data["results"].items)
    else Invalid
  }

  /** When every element of `results` is an object, the check never raises,
      and it succeeds exactly when every element has all four keys. */
  lemma ObjectResults(data: map<string, Json>)
    requires "results" in data && data["results"].JArray?
    requires forall e | e in data["results"].items :: e.JObject?
    ensures ValidateResponse(data) != Raises
    ensures ValidateResponse(data) == Valid <==>
              forall e | e in data["results"].items :: forall k | k in RequiredKeys :: k in e.fields
  {
  }

  /** A result object lacking one of the four keys makes the check fail,
      provided no earlier element raises: every earlier element is an
      object, a list or a string. */
  lemma MissingKeyFails(data: map<string, Json>, i: nat, k: string)
    requires "results" in data && data["results"].JArray?
    requires i < |data["results"].items|
    requires data["results"].items[i].JObject? && k in RequiredKeys && k !in data["results"].items[i].fields
    requires forall j :: 0 <= j < i ==> Contains(data["results"].items[j], RequiredKeys[0]) != NotAContainer
    ensures ValidateResponse(data) == Invalid
  {
    var items := data["results"].items;
    MissingKeyFailsAt(items, i, k);
  }

  lemma {:induction false} MissingKeyFailsAt(items: seq<Json>, i: nat, k: string)
    requires i < |items|
    requires items[i].JObject? && k in RequiredKeys && k !in items[i].fields
    requires forall j :: 0 <= j < i ==> Contains(items[j], RequiredKeys[0]) != NotAContainer
    ensures CheckResults(items) == Invalid
  {
    assert !HasRequiredKeys(items[i]);
    if i > 0 && AllKeys(items[0], RequiredKeys) == Valid {
      MissingKeyFailsAt(items[1..], i - 1, k);
    }
  }

  /** Adding a field other than the four required keys to one result object
      does not change the outcome. */
  lemma ExtraKeysIgnored(data: map<string, Json>, i: nat, k: string, value: Json)
    requires "results" in data && data["results"].JArray?
    requires i < |data["results"].items|
    requires data["results"].items[i].JObject? && k !in RequiredKeys
    ensures var items := data["results"].items;
            var widened := JObject(items[i].fields[k := value]);
            ValidateResponse(data["results" := JArray(items[i := widened])]) == ValidateResponse(data)
  {
    var items := data["results"].items;
    var widened := JObject(items[i].fields[k := value]);
    forall key | key in RequiredKeys
      ensures Contains(widened, key) == Contains(items[i], key)
    {
    }
    assert AllKeys(widened, RequiredKeys) == AllKeys(items[i], RequiredKeys);
    CheckResultsReplace(items, i, widened);
  }

  /** Replacing an element by one with the same per-element verdict keeps
      the overall verdict. */
  lemma {:induction false} CheckResultsReplace(items: seq<Json>, i: nat, e: Json)
    requires i < |items|
    requires AllKeys(e, RequiredKeys) == AllKeys(items[i], RequiredKeys)
    ensures CheckResults(items[i := e]) == CheckResults(items)
  {
    var items' := items[i := e];
    if i > 0 {
      assert items'[1..] == items[1..][i - 1 := e];
      CheckResultsReplace(items[1..], i - 1, e);
    } else {
      assert items'[1..] == items[1..];
    }
  }

  /** Fields outside `results` are never looked at. */
  lemma OtherFieldsIgnored(data: map<string, Json>, k: string, value: Json)
    requires k != "results"
    ensures ValidateResponse(data[k := value]) == ValidateResponse(data)
  {
  }
}
