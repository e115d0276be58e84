/** The validator of BACKUP_DATABASE_URLS_CONFIG in src/env.ts: the setting
    must be a string holding a JSON array whose every element has a truthy
    `url` and a truthy `name`; every failure surfaces as one generic error. */
module Config {

  datatype Option<+T> = None | Some(value: T)

  datatype Result<+T, +E> = Ok(value: T) | Err(error: E)

  /** A value produced by `JSON.parse`. Numbers are kept as reals: JSON text
      never yields NaN, so a number is falsy exactly when it is zero. */
  datatype Json =
    | JNull
    | JBool(b: bool)
    | JNumber(n: real)
    | JString(s: string)
    | JArray(items: seq<Json>)
    | JObject(fields: map<string, Json>)

  /** JavaScript truthiness of a parsed value. */
  predicate Truthy(v: Json) {
    match v
    case JNull => false
    case JBool(b) => b
    case JNumber(n) => n != 0.0
    case JString(s) => s != ""
    case JArray(_) => true
    case JObject(_) => true
  }

  /** The raw setting handed to the validator. For a string, `parsed` is what
      `JSON.parse` returns for it, or None when it throws a SyntaxError;
      `shown` is how the value renders inside a template string. */
  datatype Setting =
    | NonString(shown: string)
    | Text(text: string, parsed: Option<Json>)
  {
    function Shown(): string {
      match this
      case NonString(shown) => shown
      case Text(text, _) => text
    }
  }

  /** The texts of the InvalidEnvError messages the validator builds. */
  datatype Message =
    | NotArrayOfTargets(value: string)
    | NoUrlAt(value: string, index: nat)
    | NoNameAt(value: string, index: nat)

  /** What the body of the `try` block can throw. */
  datatype Thrown =
    | InvalidEnv(msg: Message)
    | SyntaxError                  // from JSON.parse
    | TypeError(index: nat)        // reading `.url` of a null element

  /** `item[key]` is truthy: only an object with that own property can hold a
      truthy value; on strings, numbers, booleans and arrays it reads undefined. */
  predicate HasTruthy(item: Json, key: string) {
    item.JObject? && key in item.fields && Truthy(item.fields[key])
  }

  predicate IsTarget(item: Json) {
    HasTruthy(item, "url") && HasTruthy(item, "name")
  }

  /** What the `forEach` callback throws for the element at `index`, if anything. */
  function ItemError(shown: string, item: Json, index: nat): (r: Option<Thrown>)
    ensures r == None <==> IsTarget(item)
  {
    if item.JNull? then Some(TypeError(index))
    else if !HasTruthy(item, "url") then Some(InvalidEnv(NoUrlAt(shown, index)))
    else if !HasTruthy(item, "name") then Some(InvalidEnv(NoNameAt(shown, index)))
    else None
  }

  /** The `forEach` over `items[from..]`: the first element that throws stops it. */
  function CheckItems(shown: string, items: seq<Json>, from: nat): (r: Option<Thrown>)
    requires from <= |items|
    ensures r == None <==> forall j :: from <= j < |items| ==> IsTarget(items[j])
    decreases |items| - from
  {
    if from == |items| then None
    else
      match ItemError(shown, items[from], from)
      case Some(e) => Some(e)
      case None => CheckItems(shown, items, from + 1)
  }

  /** The body of the `try` block, which may throw: a non-string and JSON
      that is not an array throw the generic message, text that does not parse
      throws a SyntaxError, and an acceptable setting returns its array. */
  function TryBody(v: Setting): (r: Result<seq<Json>, Thrown>)
    ensures r.Ok? <==> Acceptable(v)
    ensures r.Ok? ==> v.Text? && v.parsed == Some(JArray(r.value))
    ensures v.NonString? ==> r == Err(InvalidEnv(NotArrayOfTargets(v.shown)))
    ensures v.Text? && v.parsed.None? ==> r == Err(SyntaxError)
    ensures v.Text? && v.parsed.Some? && !v.parsed.value.JArray? ==> r == Err(InvalidEnv(NotArrayOfTargets(v.text)))
  {
    match v
    case NonString(shown) => Err(InvalidEnv(NotArrayOfTargets(shown)))
    case Text(text, parsed) =>
      match parsed
      case None => Err(SyntaxError)
      case Some(json) =>
        if !json.JArray? then Err(InvalidEnv(NotArrayOfTargets(text)))
        else match CheckItems(text, json.items, 0)
          case Some(e) => Err(e)
          case None => Ok(json.items)
  }

  /** Whether the setting is what the validator accepts: a string that parses
      to an array of elements that each carry a truthy url and a truthy name. */
  predicate Acceptable(v: Setting): (b: bool)
    ensures b <==> v.Text? && v.parsed.Some? && v.parsed.value.JArray? && CheckItems(v.text, v.parsed.value.items, 0) == None
  {
    v.Text? && v.parsed.Some? && v.parsed.value.JArray? &&
    forall j :: 0 <= j < |v.parsed.value.items| ==> IsTarget(v.parsed.value.items[j])
  }

  /** The validator: the `catch` turns whatever the body threw into the one
      generic message. It accepts exactly the acceptable settings and then
      returns the parsed array itself. */
  function Validate(v: Setting): (r: Result<seq<Json>, Message>)
    ensures r.Ok? <==> Acceptable(v)
    ensures r.Ok? ==> v.Text? && v.parsed == Some(JArray(r.value))
    ensures r.Err? ==> r.error == NotArrayOfTargets(v.Shown())
  {
    match TryBody(v)
    case Ok(items) => Ok(items)
    case Err(_) => Err(NotArrayOfTargets(v.Shown()))
  }

  /** The `forEach` reports the first offending element: a null one with a
      TypeError, one without a truthy url with the url message, otherwise the
      name message, each carrying that element's index. */
  lemma {:induction false} CheckItemsReportsFirst(shown: string, items: seq<Json>, from: nat, k: nat)
    requires from <= k < |items|
    requires forall j :: from <= j < k ==> IsTarget(items[j])
    requires !IsTarget(items[k])
    ensures CheckItems(shown, items, from) == ItemError(shown, items[k], k)
    ensures CheckItems(shown, items, from) ==
      if items[k].JNull? then Some(TypeError(k))
      else if !HasTruthy(items[k], "url") then Some(InvalidEnv(NoUrlAt(shown, k)))
      else Some(InvalidEnv(NoNameAt(shown, k)))
    decreases k - from
  {
    if from < k {
      assert IsTarget(items[from]);
      CheckItemsReportsFirst(shown, items, from + 1, k);
    }
  }

  /** Inside the `try`, an element other than null without a truthy url
      (an object lacking it, but also a number, string, boolean or array) is
      reported by index; the validator's caller still sees only the generic
      message. */
  lemma MissingUrlIsGeneric(v: Setting, k: nat)
    requires v.Text? && v.parsed.Some? && v.parsed.value.JArray?
    requires k < |v.parsed.value.items|
    requires forall j :: 0 <= j < k ==> IsTarget(v.parsed.value.items[j])
    requires !v.parsed.value.items[k].JNull? && !HasTruthy(v.parsed.value.items[k], "url")
    ensures TryBody(v) == Err(InvalidEnv(NoUrlAt(v.text, k)))
    ensures Validate(v) == Err(NotArrayOfTargets(v.text))
  {
    CheckItemsReportsFirst(v.text, v.parsed.value.items, 0, k);
  }

  /** Likewise for an element whose url is truthy but whose name is not. */
  lemma MissingNameIsGeneric(v: Setting, k: nat)
    requires v.Text? && v.parsed.Some? && v.parsed.value.JArray?
    requires k < |v.parsed.value.items|
    requires forall j :: 0 <= j < k ==> IsTarget(v.parsed.value.items[j])
    requires HasTruthy(v.parsed.value.items[k], "url") && !HasTruthy(v.parsed.value.items[k], "name")
    ensures TryBody(v) == Err(InvalidEnv(NoNameAt(v.text, k)))
    ensures Validate(v) == Err(NotArrayOfTargets(v.text))
  {
    CheckItemsReportsFirst(v.text, v.parsed.value.items, 0, k);
  }

  /** A value that is not a string, text that does not parse, and JSON that is
      not an array are all rejected with the generic message. */
  lemma RejectsNonArrays(v: Setting)
    requires v.NonString? || v.parsed.None? || !v.parsed.value.JArray?
    ensures Validate(v) == Err(NotArrayOfTargets(v.Shown()))
  {
  }
}
