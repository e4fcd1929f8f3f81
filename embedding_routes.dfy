/**
 * The embedding routes: `POST /api/embeddings/generate` (input and model
 * validation, wrapping a single string into a one-item list, and the
 * status chosen for a caught error) and `POST /api/embeddings/batch` (the
 * texts sent in contiguous slices of `batchSize`, their embeddings
 * concatenated in order and their token counts summed).
 *
 * The embedding service is an oracle from the model and the list of
 * inputs of one call to what that call returns or throws.
 */
module EmbeddingRoutes {
  import opened Common
  import opened Strings
  import opened JsValue
  import Chunkers

  const AllowedEmbeddingModels: seq<string> :=
    ["text-embedding-ada-002", "text-embedding-3-small", "text-embedding-3-large"]
  const DefaultEmbeddingModel: string := "text-embedding-ada-002"
  const MaxInputs: nat := 2048
  const DefaultBatchSize: nat := 20

  // ---------------------------------------------------------------------
  // validateInput
  // ---------------------------------------------------------------------

  /** The `Error`s `validateInput` throws, in the order it checks for them. */
  datatype InputError =
    | InputRequired              // "Input text is required"
    | NotStringOrArray           // "Input must be a string or array of strings"
    | EmptyArray                 // "Input array cannot be empty"
    | TooManyItems               // "Input array cannot contain more than 2048 items"
    | ItemNotString(index: nat)  // "Input at index <index> must be a string"
    | ItemBlank(index: nat)      // "Input at index <index> cannot be empty"
    | BlankString                // "Input string cannot be empty"

  /** What the list form of the input must hold at every index. */
  predicate GoodItem(item: JSValue) {
    item.JStr? && !IsJsBlank(item.s)
  }

  /** What `validateInput` lets through: a non-blank string, or 1 to 2048 non-blank strings. */
  predicate GoodInput(input: JSValue) {
    (input.JStr? && !IsJsBlank(input.s))
    || (input.JArr? && 0 < |input.items| <= MaxInputs
        && forall k :: 0 <= k < |input.items| ==> GoodItem(input.items[k]))
  }

  /** The body of the `forEach` callback for one item. */
  function ItemError(item: JSValue, index: nat): (r: Option<InputError>)
    ensures r.None? <==> GoodItem(item)
    ensures r.Some? ==> (r.value.ItemNotString? || r.value.ItemBlank?) && r.value.index == index
    ensures r.Some? ==> (r.value.ItemNotString? <==> !item.JStr?)
  {
    JsTrimEmptyIffBlank(if item.JStr? then item.s else "");
    if !item.JStr? then Some(ItemNotString(index))
    else if JsTrim(item.s) == "" then Some(ItemBlank(index))
    else None
  }

  /** The first failing item from `from` on: `forEach` stops at the first throw. */
  function FirstBadItem(items: seq<JSValue>, from: nat): (r: Option<InputError>)
    requires from <= |items|
    ensures r.None? <==> forall k :: from <= k < |items| ==> GoodItem(items[k])
    ensures r.Some? ==> ((r.value.ItemNotString? || r.value.ItemBlank?)
      && from <= r.value.index < |items|
      && r == ItemError(items[r.value.index], r.value.index)
      && forall k :: from <= k < r.value.index ==> GoodItem(items[k]))
    decreases |items| - from
  {
    if from == |items| then None
    else match ItemError(items[from], from)
      case Some(e) => Some(e)
      case None => FirstBadItem(items, from + 1)
  }

  /** `validateInput(input)`: `None` means it returns normally. */
  function ValidateInput(input: JSValue): Option<InputError>
  {
    if !Truthy(input) then Some(InputRequired)
    else if !input.JStr? && !input.JArr? then Some(NotStringOrArray)
    else if input.JArr? then
      if |input.items| == 0 then Some(EmptyArray)
      else if |input.items| > MaxInputs then Some(TooManyItems)
      else FirstBadItem(input.items, 0)
    else if JsTrim(input.s) == "" then Some(BlankString)
    else None
  }

  /** `validateInput` returns normally exactly on the inputs `GoodInput` describes. */
  lemma ValidateInputAccepts(input: JSValue)
    ensures ValidateInput(input).None? <==> GoodInput(input)
  {
    if input.JStr? {
      JsTrimEmptyIffBlank(input.s);
    }
  }

  /**
   * The error chosen for each failing input: falsy first (so `""` is
   * "required", not "cannot be empty"), then the type, then the array's
   * length, then its first bad item; a non-empty blank string last.
   */
  lemma ValidateInputErrors(input: JSValue)
    ensures ValidateInput(input) == Some(InputRequired) <==> !Truthy(input)
    ensures ValidateInput(input) == Some(NotStringOrArray)
      <==> Truthy(input) && !input.JStr? && !input.JArr?
    ensures ValidateInput(input) == Some(EmptyArray) <==> input.JArr? && |input.items| == 0
    ensures ValidateInput(input) == Some(TooManyItems) <==> input.JArr? && |input.items| > MaxInputs
    ensures ValidateInput(input) == Some(BlankString)
      <==> input.JStr? && input.s != "" && IsJsBlank(input.s)
    ensures forall k: nat :: ValidateInput(input) == Some(ItemNotString(k)) <==>
      (input.JArr? && |input.items| <= MaxInputs && k < |input.items| && !input.items[k].JStr?
       && forall j :: 0 <= j < k ==> GoodItem(input.items[j]))
    ensures forall k: nat :: ValidateInput(input) == Some(ItemBlank(k)) <==>
      (input.JArr? && |input.items| <= MaxInputs && k < |input.items| && input.items[k].JStr?
       && IsJsBlank(input.items[k].s) && forall j :: 0 <= j < k ==> GoodItem(input.items[j]))
  {
    if input.JStr? {
      JsTrimEmptyIffBlank(input.s);
    }
    if input.JArr? && 0 < |input.items| <= MaxInputs {
      var items := input.items;
      forall k: nat
        ensures ValidateInput(input) == Some(ItemNotString(k)) <==>
          (k < |items| && !items[k].JStr? && forall j :: 0 <= j < k ==> GoodItem(items[j]))
        ensures ValidateInput(input) == Some(ItemBlank(k)) <==>
          (k < |items| && items[k].JStr? && IsJsBlank(items[k].s)
           && forall j :: 0 <= j < k ==> GoodItem(items[j]))
      {
        var r := FirstBadItem(items, 0);
        if k < |items| && forall j :: 0 <= j < k ==> GoodItem(items[j]) {
          if r.Some? && r.value.index > k {
            assert !GoodItem(items[k]) ==> false;
          } else if r.None? {
            assert GoodItem(items[k]);
          }
        }
      }
    }
  }

  // ---------------------------------------------------------------------
  // validateEmbeddingModel
  // ---------------------------------------------------------------------

  /** `validateEmbeddingModel(model)`: a falsy model is not checked at all. */
  predicate ModelAccepted(model: JSValue) {
    !Truthy(model) || IsOneOf(model, AllowedEmbeddingModels)
  }

  /** The accepted names are exactly the three listed ones. */
  lemma ModelAcceptedNames(name: string)
    ensures ModelAccepted(JStr(name)) <==>
      name == "" || name in {"text-embedding-ada-002", "text-embedding-3-small", "text-embedding-3-large"}
  {
  }

  /**
   * `${model}` in the error message, for the values a JSON body can carry.
   * A number is shown as a placeholder: the decimal rendering of floating
   * point numbers is not part of this model.
   */
  function Shown(v: JSValue): string
    decreases v, 1
  {
    match v
    case JUndefined => "undefined"
    case JNull => "null"
    case JBool(b) => if b then "true" else "false"
    case JNum(_) => "<number>"
    case JNaN => "NaN"
    case JStr(s) => s
    case JArr(items) => ShownItems(items, v)
    case JObj(_) => "[object Object]"
  }

  /** `String(array)`: the items joined with ",", `null` and `undefined` as "". */
  function ShownItems(items: seq<JSValue>, ghost whole: JSValue): string
    requires forall k :: 0 <= k < |items| ==> items[k] < whole
    decreases whole, 0, |items|
  {
    if |items| == 0 then ""
    else
      var first := if IsNullish(items[0]) then "" else Shown(items[0]);
      if |items| == 1 then first else first + "," + ShownItems(items[1..], whole)
  }

  const ModelMessagePrefix: string := "Model "
  const ModelMessageSuffix: string := " is not supported. Allowed models: " + Join(AllowedEmbeddingModels, ", ")

  /** "Model '<model>' is not supported. Allowed models: <the three names joined by ', '>". */
  function ModelMessage(shown: string): (m: string)
  {
    ModelMessagePrefix + ['\''] + shown + ['\''] + ModelMessageSuffix
  }

  /** The three names, in order, separated by ", ". */
  lemma AllowedModelsJoined()
    ensures Join(AllowedEmbeddingModels, ", ") ==
      "text-embedding-ada-002" + ", " + "text-embedding-3-small" + ", " + "text-embedding-3-large"
  {
    var m := AllowedEmbeddingModels;
    assert m[1..][1..] == ["text-embedding-3-large"];
    assert Join(m[1..][1..], ", ") == "text-embedding-3-large";
    assert Join(m[1..], ", ") == "text-embedding-3-small" + ", " + "text-embedding-3-large";
    assert Join(m, ", ") == "text-embedding-ada-002" + ", " + Join(m[1..], ", ");
  }

  // ---------------------------------------------------------------------
  // The caught error and its status
  // ---------------------------------------------------------------------

  /**
   * A caught error: its `status` (0 when absent or 0, both falsy), `type`,
   * `message` and `code` ("" when absent or empty, both falsy).
   */
  datatype Thrown = Thrown(status: int, errType: string, message: string, code: string)

  function InputMessage(e: InputError): string {
    match e
    case InputRequired => "Input text is required"
    case NotStringOrArray => "Input must be a string or array of strings"
    case EmptyArray => "Input array cannot be empty"
    case TooManyItems => "Input array cannot contain more than " + NatToString(MaxInputs) + " items"
    case ItemNotString(k) => "Input at index " + NatToString(k) + " must be a string"
    case ItemBlank(k) => "Input at index " + NatToString(k) + " cannot be empty"
    case BlankString => "Input string cannot be empty"
  }

  /** A plain `Error` carries only its message. */
  function PlainError(message: string): Thrown {
    Thrown(0, "", message, "")
  }

  /** Whether the message decides 400 in the `/generate` handler. */
  predicate LooksLikeBadRequest(message: string) {
    Contains(message, "required") || Contains(message, "must be")
  }

  /** `error.status || (message includes 'required' or 'must be' ? 400 : 500)`. */
  function GenerateStatus(e: Thrown): (code: int)
    ensures e.status != 0 ==> code == e.status
    ensures e.status == 0 ==> (code == 400 <==> LooksLikeBadRequest(e.message))
    ensures e.status == 0 ==> (code == 500 <==> !LooksLikeBadRequest(e.message))
  {
    if e.status != 0 then e.status
    else if LooksLikeBadRequest(e.message) then 400
    else 500
  }

  lemma NoSInDigits(n: nat)
    ensures 's' !in NatToString(n) && 'q' !in NatToString(n) && 'b' !in NatToString(n)
  {
    var d := NatToString(n);
    assert forall i :: 0 <= i < |d| ==> IsAsciiDigit(d[i]);
  }

  /**
   * The status of each `validateInput` error: only "required" and the two
   * "must be" messages give 400; an empty array, more than 2048 items, a
   * blank item and a blank string all give 500.
   */
  lemma InputErrorStatus(e: InputError)
    ensures GenerateStatus(PlainError(InputMessage(e))) ==
      (if e.InputRequired? || e.NotStringOrArray? || e.ItemNotString? then 400 else 500)
  {
    match e
    case InputRequired => RequiredMessage();
    case NotStringOrArray => NotStringOrArrayMessage();
    case EmptyArray => EmptyArrayMessage();
    case TooManyItems => TooManyItemsMessage();
    case ItemNotString(k) => ItemNotStringMessage(k);
    case ItemBlank(k) => ItemBlankMessage(k);
    case BlankString => BlankStringMessage();
  }

  /** `MissingCharNotContained` for a text given in three pieces. */
  lemma MissingCharInPieces(a: string, b: string, c: string, pat: string, k: nat)
    requires k < |pat| && pat[k] !in a && pat[k] !in b && pat[k] !in c
    ensures !Contains(a + b + c, pat)
  {
    MissingCharNotContained(a + b + c, pat, k);
  }

  /** The 2048 in the message is the limit itself. */
  lemma TooManyItemsText()
    ensures InputMessage(TooManyItems) == "Input array cannot contain more than 2048 items"
  {
    assert NatToString(2048) == "2048";
  }

  lemma RequiredMessage()
    ensures LooksLikeBadRequest(InputMessage(InputRequired))
  {
    assert OccursAt("Input text is required", "required", 14);
  }

  lemma NotStringOrArrayMessage()
    ensures LooksLikeBadRequest(InputMessage(NotStringOrArray))
  {
    assert InputMessage(NotStringOrArray) == "Input " + "must be" + " a string or array of strings";
    assert OccursAt("must be", "must be", 0);
    ContainedInside("Input ", "must be", " a string or array of strings", "must be");
  }

  lemma EmptyArrayMessage()
    ensures !LooksLikeBadRequest(InputMessage(EmptyArray))
  {
    var m := "Input array cannot be empty";
    MissingCharNotContained(m, "required", 2);
    MissingCharNotContained(m, "must be", 2);
  }

  lemma TooManyItemsMessage()
    ensures !LooksLikeBadRequest(InputMessage(TooManyItems))
  {
    var a, b, c := "Input array cannot contain more than ", NatToString(MaxInputs), " items";
    NoSInDigits(MaxInputs);
    MissingCharInPieces(a, b, c, "required", 2);
    MissingCharInPieces(a, b, c, "must be", 5);
  }

  lemma ItemNotStringMessage(k: nat)
    ensures LooksLikeBadRequest(InputMessage(ItemNotString(k)))
  {
    var head := "Input at index " + NatToString(k) + " ";
    assert " must be a string" == " " + "must be" + " a string";
    assert InputMessage(ItemNotString(k)) == head + "must be" + " a string";
    assert OccursAt(head + "must be" + " a string", "must be", |head|);
  }

  lemma ItemBlankMessage(k: nat)
    ensures !LooksLikeBadRequest(InputMessage(ItemBlank(k)))
  {
    NoSInDigits(k);
    var m := InputMessage(ItemBlank(k));
    assert 'q' !in "Input at index " && 's' !in "Input at index ";
    assert 'q' !in " cannot be empty" && 's' !in " cannot be empty";
    MissingCharNotContained(m, "required", 2);
    MissingCharNotContained(m, "must be", 2);
  }

  lemma BlankStringMessage()
    ensures !LooksLikeBadRequest(InputMessage(BlankString))
  {
    var m := InputMessage(BlankString);
    assert m == "Input string cannot be " + "empty";
    MissingCharNotContained(m, "required", 2);
    LateFirstCharNotContained("Input string cannot be ", "empty", "must be");
  }

  lemma SuffixIsPieces()
    ensures ModelMessageSuffix == " is not supported. Allowed models: " + "text-embedding-ada-002" + ", "
      + "text-embedding-3-small" + ", " + "text-embedding-3-large"
  {
    AllowedModelsJoined();
  }

  /** "required" does not occur in the fixed text after the model name: it has no 'q'. */
  lemma SuffixLacksRequired()
    ensures !Contains(" is not supported. Allowed models: " + "text-embedding-ada-002" + ", "
      + "text-embedding-3-small" + ", " + "text-embedding-3-large", "required")
  {
    var intro := " is not supported. Allowed models: ";
    var ada, small, large := "text-embedding-ada-002", "text-embedding-3-small", "text-embedding-3-large";
    assert 'q' !in intro && 'q' !in ada && 'q' !in small && 'q' !in large;
    MissingCharNotContained(intro + ada + ", " + small + ", " + large, "required", 2);
  }

  /**
   * "must be" does not occur in it either: cut at the 'x' of the first
   * name and at both commas, none of them in "must be", every piece
   * lacks one of its characters.
   */
  lemma SuffixLacksMustBe()
    ensures !Contains(" is not supported. Allowed models: " + "text-embedding-ada-002" + ", "
      + "text-embedding-3-small" + ", " + "text-embedding-3-large", "must be")
  {
    var intro := " is not supported. Allowed models: ";
    var ada, small, large := "text-embedding-ada-002", "text-embedding-3-small", "text-embedding-3-large";
    var p1, p2, p3, p4 := intro + "te", "t-embedding-ada-002", " " + small, " " + large;
    assert 'b' !in intro && 'b' !in "te";
    MissingCharNotContained(p1, "must be", 5);
    MissingCharNotContained(p2, "must be", 1);
    MissingCharNotContained(p3, "must be", 1);
    MissingCharNotContained(p4, "must be", 1);
    NotContainedAcross(p3, ',', p4, "must be");
    NotContainedAcross(p2, ',', p3 + [','] + p4, "must be");
    NotContainedAcross(p1, 'x', p2 + [','] + (p3 + [','] + p4), "must be");
    assert ada == "te" + ['x'] + p2;
    assert ", " == [','] + " ";
    RegroupModels(intro, "te", p2, small, large);
  }

  /** The model list, cut at the 'x' of the first name and at the two commas. */
  lemma RegroupModels(intro: string, te: string, p2: string, small: string, large: string)
    ensures intro + (te + ['x'] + p2) + ([','] + " ") + small + ([','] + " ") + large
      == (intro + te) + ['x'] + (p2 + [','] + ((" " + small) + [','] + (" " + large)))
  {
  }

  /**
   * An unsupported model gives 400 exactly when its shown name contains
   * "required" or "must be" (the quotes around the name keep the two
   * words from straddling it), and 500 otherwise.
   */
  lemma ModelErrorStatus(shown: string)
    ensures GenerateStatus(PlainError(ModelMessage(shown))) == 400 <==> LooksLikeBadRequest(shown)
    ensures GenerateStatus(PlainError(ModelMessage(shown))) == 500 <==> !LooksLikeBadRequest(shown)
  {
    SuffixIsPieces();
    SuffixLacksRequired();
    SuffixLacksMustBe();
    QuotedName(ModelMessagePrefix, shown, ModelMessageSuffix, "required");
    QuotedName(ModelMessagePrefix, shown, ModelMessageSuffix, "must be");
  }

  /**
   * A pattern without a quote occurs in `prefix'shown'suffix` exactly
   * when it occurs in `shown`, provided it is in neither fixed part.
   */
  lemma QuotedName(prefix: string, shown: string, suffix: string, pat: string)
    requires '\'' !in pat && !Contains(prefix, pat) && !Contains(suffix, pat)
    ensures Contains(prefix + ['\''] + shown + ['\''] + suffix, pat) <==> Contains(shown, pat)
  {
    var q := ['\''];
    if Contains(shown, pat) {
      ContainedInside(prefix + q, shown, q + suffix, pat);
      assert prefix + q + shown + (q + suffix) == prefix + q + shown + q + suffix;
    } else {
      NotContainedAcross(shown, '\'', suffix, pat);
      NotContainedAcross(prefix, '\'', shown + q + suffix, pat);
      assert prefix + q + (shown + q + suffix) == prefix + q + shown + q + suffix;
    }
  }

  /** "gpt-4o", a chat model, is rejected with status 500. */
  lemma ChatModelRejected()
    ensures !ModelAccepted(JStr("gpt-4o"))
    ensures GenerateStatus(PlainError(ModelMessage(Shown(JStr("gpt-4o"))))) == 500
  {
    ModelErrorStatus("gpt-4o");
  }

  // ---------------------------------------------------------------------
  // POST /generate
  // ---------------------------------------------------------------------

  type Embedding = seq<real>

  /** What one call of the embedding service returns: `data`, `model` and `usage.total_tokens`. */
  datatype Embedded = Embedded(data: seq<Embedding>, model: string, totalTokens: nat)

  /** The service: the model and the inputs of one call to its response or to what it throws. */
  type Service = (JSValue, seq<JSValue>) -> Result<Embedded, Thrown>

  /** The JSON response: 200 with the embeddings, or an error status with the body's string fields. */
  datatype Reply =
    | Success(data: seq<Embedding>, model: JSValue, totalTokens: nat)
    | Failure(status: int, fields: map<string, string>)

  /** `Array.isArray(input) ? input : [input]`. */
  function Wrap(input: JSValue): (inputs: seq<JSValue>)
    ensures input.JArr? ==> inputs == input.items
    ensures !input.JArr? ==> inputs == [input]
  {
    if input.JArr? then input.items else [input]
  }

  /** The error a validation step of `/generate` throws, if any. */
  function GenerateCheck(input: JSValue, model: JSValue): Option<Thrown>
  {
    match ValidateInput(input)
    case Some(e) => Some(PlainError(InputMessage(e)))
    case None => if ModelAccepted(model) then None else Some(PlainError(ModelMessage(Shown(model))))
  }

  /** The `catch` of `/generate`: the status, `type || 'embedding_error'`, the message and a truthy code. */
  function GenerateFailure(e: Thrown): Reply {
    var fields := map["error" := if e.errType != "" then e.errType else "embedding_error",
                      "message" := if e.message != "" then e.message else "Failed to generate embeddings"];
    Failure(GenerateStatus(e), if e.code != "" then fields["code" := e.code] else fields)
  }

  function Generate(body: map<string, JSValue>, embed: Service): Reply {
    var input := FieldOr(body, "input", JUndefined);
    var model := FieldOr(body, "model", JStr(DefaultEmbeddingModel));
    match GenerateCheck(input, model)
    case Some(e) => GenerateFailure(e)
    case None =>
      match embed(model, Wrap(input))
      case Err(e) => GenerateFailure(e)
      case Ok(x) => Success(x.data, JStr(x.model), x.totalTokens)
  }

  /**
   * The service is called only after both checks pass, and then always
   * with 1 to 2048 non-blank strings: the list itself, or the single
   * string wrapped.
   */
  lemma GenerateCallsWithGoodInputs(body: map<string, JSValue>, embed: Service)
    ensures var input := FieldOr(body, "input", JUndefined);
      var model := FieldOr(body, "model", JStr(DefaultEmbeddingModel));
      GenerateCheck(input, model).None? <==> GoodInput(input) && ModelAccepted(model)
    ensures var input := FieldOr(body, "input", JUndefined);
      GoodInput(input) ==>
        (0 < |Wrap(input)| <= MaxInputs && forall k :: 0 <= k < |Wrap(input)| ==> GoodItem(Wrap(input)[k]))
    ensures Generate(body, embed).Success? ==>
      var input := FieldOr(body, "input", JUndefined);
      var model := FieldOr(body, "model", JStr(DefaultEmbeddingModel));
      GoodInput(input) && ModelAccepted(model) && embed(model, Wrap(input)).Ok?
  {
    ValidateInputAccepts(FieldOr(body, "input", JUndefined));
  }

  /** Without a `model` field the default model is used, and it passes the model check. */
  lemma GenerateDefaultModel(body: map<string, JSValue>)
    requires "model" !in body
    ensures FieldOr(body, "model", JStr(DefaultEmbeddingModel)) == JStr("text-embedding-ada-002")
    ensures ModelAccepted(FieldOr(body, "model", JStr(DefaultEmbeddingModel)))
  {
  }

  /**
   * A failing `validateInput` answers the error's message under
   * "message", "embedding_error" under "error", and the status
   * `InputErrorStatus` gives, without any call of the service.
   */
  lemma GenerateInputFailure(body: map<string, JSValue>, embed: Service, e: InputError)
    requires ValidateInput(FieldOr(body, "input", JUndefined)) == Some(e)
    ensures Generate(body, embed) == Failure(
      if e.InputRequired? || e.NotStringOrArray? || e.ItemNotString? then 400 else 500,
      map["error" := "embedding_error", "message" := InputMessage(e)])
  {
    InputErrorStatus(e);
    assert |InputMessage(e)| > 0;
  }

  /** The list ["a", " "] fails at index 1, a blank item. */
  lemma BlankItemExample()
    ensures ValidateInput(JArr([JStr("a"), JStr(" ")])) == Some(ItemBlank(1))
  {
    var items := [JStr("a"), JStr(" ")];
    assert "a"[0] == 'a' && !IsJsSpace('a');
    assert IsJsBlank(" ") && !IsJsBlank("a");
    assert GoodItem(items[0]) && !GoodItem(items[1]);
    assert FirstBadItem(items, 1) == Some(ItemBlank(1));
  }

  // ---------------------------------------------------------------------
  // POST /batch
  // ---------------------------------------------------------------------

  /**
   * `batchSize = 20`: the default when the field is missing or undefined;
   * a positive whole number is taken as given. Other values are not
   * modelled (`None`).
   */
  function BatchSizeOf(body: map<string, JSValue>): (r: Option<nat>)
    ensures r.Some? ==> r.value > 0
    ensures "batchSize" !in body ==> r == Some(DefaultBatchSize)
  {
    match FieldOr(body, "batchSize", JNum(DefaultBatchSize as real))
    case JNum(n) => if n >= 1.0 && n.Floor as real == n then Some(n.Floor as nat) else None
    case _ => None
  }

  /**
   * The calls over the slices `batches`, in order, stopping at the first
   * that throws: the embeddings concatenated and the tokens summed.
   */
  function Batches(batches: seq<seq<JSValue>>, model: JSValue, embed: Service): Result<(seq<Embedding>, nat), Thrown>
  {
    if |batches| == 0 then Ok(([], 0))
    else match Batches(AllButLast(batches), model, embed)
      case Err(e) => Err(e)
      case Ok(acc) =>
        match embed(model, Last(batches))
        case Err(e) => Err(e)
        case Ok(x) => Ok((acc.0 + x.data, acc.1 + x.totalTokens))
  }

  /** The `catch` of `/batch`: `status || 500`, the message and `type || 'internal_error'`. */
  function BatchFailure(e: Thrown): (r: Reply)
    ensures r.Failure? && r.status == if e.status != 0 then e.status else 500
  {
    Failure(if e.status != 0 then e.status else 500,
            map["error" := if e.message != "" then e.message else "Failed to generate batch embeddings",
                "type" := if e.errType != "" then e.errType else "internal_error"])
  }

  /** What `/batch` answers, with the request's own model echoed. */
  function BatchReply(body: map<string, JSValue>, embed: Service): Reply
    requires BatchSizeOf(body).Some?
  {
    var texts := FieldOr(body, "texts", JUndefined);
    var model := FieldOr(body, "model", JStr(DefaultEmbeddingModel));
    if !Truthy(texts) || !texts.JArr? then Failure(400, map["error" := "Texts array is required"])
    else match Batches(Chunkers.Slices(texts.items, BatchSizeOf(body).value), model, embed)
      case Err(e) => BatchFailure(e)
      case Ok(res) => Success(res.0, model, res.1)
  }

  /** One more call after `done`: it happens only if all earlier calls returned. */
  lemma BatchesSnoc(done: seq<seq<JSValue>>, batch: seq<JSValue>, model: JSValue, embed: Service)
    ensures Batches(done + [batch], model, embed) ==
      match Batches(done, model, embed)
      case Err(e) => Err(e)
      case Ok(acc) =>
        match embed(model, batch)
        case Err(e) => Err(e)
        case Ok(x) => Ok((acc.0 + x.data, acc.1 + x.totalTokens))
  {
    SnocParts(done, batch);
  }

  /** One more slice sent after the earlier ones all succeeded. */
  lemma BatchStep(whole: seq<seq<JSValue>>, n: nat, model: JSValue, embed: Service,
                  embeddings: seq<Embedding>, tokens: nat)
    requires n < |whole| && Batches(whole[..n], model, embed) == Ok((embeddings, tokens))
    ensures embed(model, whole[n]).Err? ==>
      Batches(whole, model, embed) == Err(embed(model, whole[n]).error)
    ensures embed(model, whole[n]).Ok? ==> (Batches(whole[..n + 1], model, embed)
      == Ok((embeddings + embed(model, whole[n]).value.data, tokens + embed(model, whole[n]).value.totalTokens)))
  {
    TakeNext(whole, n);
    BatchesSnoc(whole[..n], whole[n], model, embed);
    if embed(model, whole[n]).Err? {
      TakeDrop(whole, n + 1);
      ErrorEnds(whole[..n + 1], whole[n + 1..], whole, model, embed);
    }
  }

  /** The loop of `SendBatches` at slice n, which starts at text i. */
  lemma LoopStep(items: seq<JSValue>, i: nat, batchSize: nat, whole: seq<seq<JSValue>>, n: nat,
                 model: JSValue, embed: Service, embeddings: seq<Embedding>, tokens: nat)
    requires batchSize > 0 && i < |items| && n <= |whole|
    requires Chunkers.Slices(Slice(items, i, |items|), batchSize) == whole[n..]
    requires Batches(whole[..n], model, embed) == Ok((embeddings, tokens))
    ensures n < |whole| && whole[n] == Slice(items, i, i + batchSize)
    ensures Chunkers.Slices(Slice(items, i + batchSize, |items|), batchSize) == whole[n + 1..]
    ensures embed(model, whole[n]).Err? ==>
      Batches(whole, model, embed) == Err(embed(model, whole[n]).error)
    ensures embed(model, whole[n]).Ok? ==> (Batches(whole[..n + 1], model, embed)
      == Ok((embeddings + embed(model, whole[n]).value.data, tokens + embed(model, whole[n]).value.totalTokens)))
  {
    Chunkers.SlicesStep(items, i, batchSize);
    DropFirst(whole, n, Slice(items, i, i + batchSize), Chunkers.Slices(Slice(items, i + batchSize, |items|), batchSize));
    BatchStep(whole, n, model, embed, embeddings, tokens);
  }

  /**
   * `for (let i = 0; i < texts.length; i += batchSize)`: one call per
   * slice, the embeddings pushed and the tokens added, leaving the loop
   * at the first call that throws.
   */
  method SendBatches(items: seq<JSValue>, batchSize: nat, model: JSValue, embed: Service)
    returns (outcome: Result<(seq<Embedding>, nat), Thrown>)
    requires batchSize > 0
    ensures outcome == Batches(Chunkers.Slices(items, batchSize), model, embed)
  {
    var allEmbeddings: seq<Embedding> := [];
    var totalTokens: nat := 0;
    ghost var whole := Chunkers.Slices(items, batchSize);
    ghost var n: nat := 0;
    var i: nat := 0;
    assert Slice(items, 0, |items|) == items;
    assert whole[0..] == whole;
    while i < |items|
      invariant n <= |whole|
      invariant Chunkers.Slices(Slice(items, i, |items|), batchSize) == whole[n..]
      invariant Batches(whole[..n], model, embed) == Ok((allEmbeddings, totalTokens))
      decreases |items| - i
    {
      var batch := Slice(items, i, i + batchSize);
      LoopStep(items, i, batchSize, whole, n, model, embed, allEmbeddings, totalTokens);
      assert Chunkers.Slices(Slice(items, i + batchSize, |items|), batchSize) == whole[n + 1..];
      var response := embed(model, batch);
      if response.Err? {
        return Err(response.error);
      }
      allEmbeddings := allEmbeddings + response.value.data;
      totalTokens := totalTokens + response.value.totalTokens;
      i := i + batchSize;
      n := n + 1;
    }
    assert Slice(items, i, |items|) == [];
    assert whole[n..] == [];
    assert whole[..n] == whole;
    outcome := Ok((allEmbeddings, totalTokens));
  }

  /** The `/batch` handler. */
  method Batch(body: map<string, JSValue>, embed: Service) returns (r: Reply)
    requires BatchSizeOf(body).Some?
    ensures r == BatchReply(body, embed)
  {
    var texts := FieldOr(body, "texts", JUndefined);
    var model := FieldOr(body, "model", JStr(DefaultEmbeddingModel));
    if !Truthy(texts) || !texts.JArr? {
      return Failure(400, map["error" := "Texts array is required"]);
    }
    var outcome := SendBatches(texts.items, BatchSizeOf(body).value, model, embed);
    match outcome
    case Err(e) => r := BatchFailure(e);
    case Ok(res) => r := Success(res.0, model, res.1);
  }

  lemma ErrorEnds(done: seq<seq<JSValue>>, later: seq<seq<JSValue>>, whole: seq<seq<JSValue>>,
                   model: JSValue, embed: Service)
    requires done + later == whole && Batches(done, model, embed).Err?
    ensures Batches(whole, model, embed) == Batches(done, model, embed)
  {
    PrefixErrStays(done, later, model, embed);
  }

  /** Once a call has thrown, the later slices are never sent and the same error is the answer. */
  lemma {:induction false} PrefixErrStays(done: seq<seq<JSValue>>, later: seq<seq<JSValue>>, model: JSValue, embed: Service)
    requires Batches(done, model, embed).Err?
    ensures Batches(done + later, model, embed) == Batches(done, model, embed)
    decreases |later|
  {
    if |later| > 0 {
      var front := done + AllButLast(later);
      assert AllButLast(done + later) == front;
      LastSplit(later);
      PrefixErrStays(done, AllButLast(later), model, embed);
    } else {
      assert done + later == done;
    }
  }

  /**
   * A failing batch answers with the error of the first call that threw;
   * every call before it returned normally.
   */
  lemma {:induction false} FirstErrorAnswers(batches: seq<seq<JSValue>>, model: JSValue, embed: Service)
    returns (k: nat)
    requires Batches(batches, model, embed).Err?
    ensures k < |batches|
    ensures embed(model, batches[k]) == Err(Batches(batches, model, embed).error)
    ensures forall j :: 0 <= j < k ==> embed(model, batches[j]).Ok?
  {
    var front := AllButLast(batches);
    if Batches(front, model, embed).Err? {
      k := FirstErrorAnswers(front, model, embed);
    } else {
      k := |batches| - 1;
      AllOkBefore(front, model, embed);
    }
  }

  /** When the calls over `batches` all return, each one did. */
  lemma {:induction false} AllOkBefore(batches: seq<seq<JSValue>>, model: JSValue, embed: Service)
    requires Batches(batches, model, embed).Ok?
    ensures forall j :: 0 <= j < |batches| ==> embed(model, batches[j]).Ok?
  {
    if |batches| > 0 {
      AllOkBefore(AllButLast(batches), model, embed);
    }
  }

  /** A service that answers every call with one embedding per input. */
  ghost predicate OnePerInput(embed: Service, model: JSValue) {
    forall b :: embed(model, b).Ok? && |embed(model, b).value.data| == |b|
  }

  /** Then the batched calls return one embedding per text sent, in total. */
  lemma {:induction false} BatchesCount(batches: seq<seq<JSValue>>, model: JSValue, embed: Service)
    requires OnePerInput(embed, model)
    ensures Batches(batches, model, embed).Ok?
    ensures |Batches(batches, model, embed).value.0| == |Flatten(batches)|
  {
    if |batches| > 0 {
      BatchesCount(AllButLast(batches), model, embed);
      LastSplit(batches);
      FlattenAppend(AllButLast(batches), [Last(batches)]);
      assert Flatten([Last(batches)]) == Last(batches);
    }
  }

  /**
   * `/batch` over a list of texts with such a service makes
   * ceil(n / batchSize) calls, each of at most batchSize texts, that
   * together send every text once and in order, and answers with one
   * embedding per text.
   */
  lemma BatchCoversTexts(body: map<string, JSValue>, embed: Service)
    requires BatchSizeOf(body).Some?
    requires var texts := FieldOr(body, "texts", JUndefined); texts.JArr?
    requires OnePerInput(embed, FieldOr(body, "model", JStr(DefaultEmbeddingModel)))
    ensures var items := FieldOr(body, "texts", JUndefined).items;
      var size := BatchSizeOf(body).value;
      |Chunkers.Slices(items, size)| == CeilDiv(|items|, size)
      && Flatten(Chunkers.Slices(items, size)) == items
      && (forall k :: 0 <= k < |Chunkers.Slices(items, size)| ==> 0 < |Chunkers.Slices(items, size)[k]| <= size)
      && BatchReply(body, embed).Success?
      && |BatchReply(body, embed).data| == |items|
  {
    var texts := FieldOr(body, "texts", JUndefined);
    var items := texts.items;
    var size := BatchSizeOf(body).value;
    var model := FieldOr(body, "model", JStr(DefaultEmbeddingModel));
    var slices := Chunkers.Slices(items, size);
    Chunkers.SlicesCount(items, size);
    Chunkers.SlicesFlatten(items, size);
    Chunkers.SlicesSizes(items, size);
    BatchesCount(slices, model, embed);
    var res := Batches(slices, model, embed).value;
    assert Truthy(texts);
    assert BatchReply(body, embed) == Success(res.0, model, res.1);
  }

  /** An empty list of texts is answered without any call: no embeddings and no tokens. */
  lemma EmptyTextsNoCalls(body: map<string, JSValue>, embed: Service)
    requires BatchSizeOf(body).Some?
    requires FieldOr(body, "texts", JUndefined) == JArr([])
    ensures BatchReply(body, embed) == Success([], FieldOr(body, "model", JStr(DefaultEmbeddingModel)), 0)
  {
  }
}
