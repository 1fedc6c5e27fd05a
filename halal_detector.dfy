/** The deterministic part of the `HalalDetector` client: cleaning the raw
    answer of the text-generation endpoint, turning the outcome of the one
    POST request into a mapping, and shaping that mapping into the result
    records of the public operations.

    The POST request itself is not modelled: each operation receives its
    `Outcome` (a transport failure or a status code with a body) as an
    argument, and `json.loads` is the argument `parse`. The prompts sent
    upstream are opaque text and do not appear. */
module HalalDetector {
  import opened Text
  import opened Json

  /** What the single POST request to the endpoint produced: an exception
      raised by the transport (its message), or an HTTP status and body. */
  datatype Outcome = Transport(message: string) | Http(code: int, body: string)

  /** What `json.loads` made of a text: a decoded value, or a decode error. */
  datatype ParseResult = Parsed(value: Value) | Failed

  /** The exceptions a result mapper raises when the upstream answer decodes
      to a value of the wrong shape. */
  datatype PyError = AttributeError | TypeError

  datatype Result<T> = Ok(value: T) | Err(error: PyError)

  // ---------------------------------------------------------------------
  // Response sanitiser
  // ---------------------------------------------------------------------

  /** The provider boilerplate `_clean_response` deletes, in the order it
      deletes it. */
  const Boilerplate: seq<string> := [
    "Powered by Pollinations.AI",
    "Support our mission",
    "https://pollinations.ai",
    "pollinations.ai",
    "pollinations"]

  /** `_clean_response`: delete every occurrence of each boilerplate string,
      one string after the other, then strip surrounding whitespace. */
  function CleanResponse(text: string): (r: string)
    ensures |r| <= |text|
    ensures NoEdgeSpace(r)
  {
    Strip(RemoveEach(text, Boilerplate))
  }

  /** Both URL patterns contain the bare provider name. */
  lemma UrlPatternsContainName()
    ensures Occurs("https://pollinations.ai", "pollinations")
    ensures Occurs("pollinations.ai", "pollinations")
  {
    assert OccursAt("https://pollinations.ai", "pollinations", 8);
    assert OccursAt("pollinations.ai", "pollinations", 0);
  }

  /** Text free of the boilerplate only loses its surrounding whitespace.
      The two URL patterns contain "pollinations", so their absence follows. */
  lemma CleanWithoutBoilerplate(text: string)
    requires !Occurs(text, "Powered by Pollinations.AI")
    requires !Occurs(text, "Support our mission")
    requires !Occurs(text, "pollinations")
    ensures CleanResponse(text) == Strip(text)
  {
    UrlPatternsContainName();
    if Occurs(text, "https://pollinations.ai") {
      OccursTransitive(text, "https://pollinations.ai", "pollinations");
    }
    if Occurs(text, "pollinations.ai") {
      OccursTransitive(text, "pollinations.ai", "pollinations");
    }
    RemoveEachAbsent(text, Boilerplate);
  }

  // ---------------------------------------------------------------------
  // Turning the request outcome into a mapping
  // ---------------------------------------------------------------------

  /** The four-field mapping returned on every failure path. */
  function Fallback(status: string, explanation: string, concern: string): Value {
    Object(map[
      "status" := Str(status),
      "explanation" := Str(explanation),
      "confidence" := Str("Low"),
      "concerns" := Array([Str(concern)])])
  }

  /** `r` is a failure mapping: exactly the four keys, the given status,
      a textual explanation, confidence "Low" and the single given concern. */
  predicate IsFallback(r: Value, status: string, concern: string) {
    && r.Object?
    && r.fields.Keys == {"status", "explanation", "confidence", "concerns"}
    && r.fields["status"] == Str(status)
    && r.fields["explanation"].Str?
    && r.fields["confidence"] == Str("Low")
    && r.fields["concerns"] == Array([Str(concern)])
  }

  /** The failure mapping has exactly the four keys, and its explanation is
      the text it was built from. */
  lemma FallbackIsFallback(status: string, explanation: string, concern: string)
    ensures IsFallback(Fallback(status, explanation, concern), status, concern)
    ensures Fallback(status, explanation, concern).fields["explanation"] == Str(explanation)
  {
    var keys := {"status", "explanation", "confidence", "concerns"};
    assert Fallback(status, explanation, concern).fields.Keys == keys;
  }

  /** `e` reads "HTTP " followed by `str(code)`: the shortest numeral of the
      code, with no leading zero and a minus sign when it is negative. */
  predicate NamesStatusCode(e: string, code: int) {
    && |e| > 5 && e[..5] == "HTTP "
    && (code >= 0 ==> AllDigits(e[5..]) && DecimalValue(e[5..]) == code && (e[5] == '0' ==> e == "HTTP 0"))
    && (code < 0 ==> |e| > 6 && e[5] == '-' && e[6] != '0' && AllDigits(e[6..]) && DecimalValue(e[6..]) == -code)
  }

  /** The f-string `f"HTTP {code}"`. */
  function HttpErrorText(code: int): (e: string)
    ensures NamesStatusCode(e, code)
    ensures IsDigit(e[|e| - 1]) && '\n' !in e
  {
    var e := "HTTP " + IntToDecimal(code);
    assert e[5..] == IntToDecimal(code) && e[..5] == "HTTP ";
    assert code < 0 ==> e[6..] == IntToDecimal(code)[1..];
    e
  }

  /** The outcome was a 200 response whose cleaned body decodes to a value. */
  predicate ParsedOk(outcome: Outcome, parse: string -> ParseResult) {
    outcome.Http? && outcome.code == 200 && parse(CleanResponse(outcome.body)).Parsed?
  }

  /** `_generate_ai_response`, from the moment the request has completed.
      Its four paths are stated by the lemmas below. */
  function GenerateResponse(outcome: Outcome, parse: string -> ParseResult): Value {
    match outcome
    case Transport(message) => Fallback("Error", message, "Network Error")
    case Http(code, body) =>
      if code == 200 then
        var cleaned := CleanResponse(body);
        match parse(cleaned)
        case Parsed(v) => v
        case Failed => Fallback("Unknown", cleaned, "Invalid JSON response")
      else
        Fallback("Error", HttpErrorText(code), "API Error")
  }

  /** A transport exception is caught and becomes the "Network Error"
      mapping carrying the exception's message. */
  lemma GenerateOnTransportError(message: string, parse: string -> ParseResult)
    ensures var r := GenerateResponse(Transport(message), parse);
      IsFallback(r, "Error", "Network Error") && r.fields["explanation"] == Str(message)
  {
    FallbackIsFallback("Error", message, "Network Error");
  }

  /** A status other than 200 becomes the "API Error" mapping whose
      explanation names the status code; the body is ignored. */
  lemma GenerateOnHttpError(code: int, body: string, parse: string -> ParseResult)
    requires code != 200
    ensures var r := GenerateResponse(Http(code, body), parse);
      IsFallback(r, "Error", "API Error") && NamesStatusCode(r.fields["explanation"].s, code)
  {
    var e := HttpErrorText(code);
    assert GenerateResponse(Http(code, body), parse) == Fallback("Error", e, "API Error");
    FallbackIsFallback("Error", e, "API Error");
  }

  /** A 200 body that does not decode after cleaning becomes the "Unknown"
      mapping whose explanation is the cleaned text. */
  lemma GenerateOnInvalidJson(body: string, parse: string -> ParseResult)
    requires parse(CleanResponse(body)) == Failed
    ensures var r := GenerateResponse(Http(200, body), parse);
      && IsFallback(r, "Unknown", "Invalid JSON response")
      && r.fields["explanation"] == Str(CleanResponse(body))
      && NoEdgeSpace(r.fields["explanation"].s) && |r.fields["explanation"].s| <= |body|
  {
    var cleaned := CleanResponse(body);
    assert GenerateResponse(Http(200, body), parse) == Fallback("Unknown", cleaned, "Invalid JSON response");
    FallbackIsFallback("Unknown", cleaned, "Invalid JSON response");
  }

  /** A 200 body that decodes after cleaning is returned exactly as decoded,
      whatever its keys or shape. */
  lemma GenerateOnParsed(body: string, parse: string -> ParseResult, v: Value)
    requires parse(CleanResponse(body)) == Parsed(v)
    ensures GenerateResponse(Http(200, body), parse) == v
  {
  }

  /** Every outcome that is not a decoded 200 body gives a failure mapping,
      whose status is "Error" exactly when the request itself failed. */
  lemma GenerateFailureShape(outcome: Outcome, parse: string -> ParseResult)
    requires !ParsedOk(outcome, parse)
    ensures var r := GenerateResponse(outcome, parse);
      && r.Object? && r.fields.Keys == {"status", "explanation", "confidence", "concerns"}
      && r.fields["explanation"].Str? && r.fields["confidence"] == Str("Low")
      && (r.fields["status"] == Str("Error") <==> !(outcome.Http? && outcome.code == 200))
      && (r.fields["status"] == Str("Error") || r.fields["status"] == Str("Unknown"))
  {
    match outcome
    case Transport(message) =>
      GenerateOnTransportError(message, parse);
    case Http(code, body) =>
      if code == 200 {
        GenerateOnInvalidJson(body, parse);
      } else {
        GenerateOnHttpError(code, body, parse);
      }
  }

  // ---------------------------------------------------------------------
  // detect_ingredient and detect_food_item
  // ---------------------------------------------------------------------

  /** What was asked about, and under which key the result echoes it:
      "ingredient" or "food_item". */
  datatype Subject = Ingredient(name: string) | FoodItem(name: string)

  /** The classification record of `detect_ingredient` and `detect_food_item`.
      Its fields hold whatever JSON the upstream answer put there. */
  datatype Detection = Detection(
    subject: Subject,
    status: Value,
    explanation: Value,
    confidence: Value,
    concerns: Value)

  /** The dictionary literal built from `.get` calls: each field is copied
      from the mapping when its key is present and defaulted otherwise; the
      subject is echoed. `.get` on a value that is not a dictionary raises
      AttributeError. */
  function ShapeDetection(subject: Subject, response: Value): (r: Result<Detection>)
    ensures r.Err? <==> !response.Object?
    ensures r.Err? ==> r.error == AttributeError
    ensures r.Ok? ==>
      && r.value.subject == subject
      && CopiedOrDefault(response.fields, "status", Str("Unknown"), r.value.status)
      && CopiedOrDefault(response.fields, "explanation", Str("No explanation provided"), r.value.explanation)
      && CopiedOrDefault(response.fields, "confidence", Str("Low"), r.value.confidence)
      && CopiedOrDefault(response.fields, "concerns", Array([]), r.value.concerns)
  {
    match response
    case Object(fields) =>
      Ok(Detection(
        subject,
        Get(fields, "status", Str("Unknown")),
        Get(fields, "explanation", Str("No explanation provided")),
        Get(fields, "confidence", Str("Low")),
        Get(fields, "concerns", Array([]))))
    case _ => Err(AttributeError)
  }

  /** Query, then shape the answer for `subject`. */
  function Detect(subject: Subject, outcome: Outcome, parse: string -> ParseResult): Result<Detection> {
    ShapeDetection(subject, GenerateResponse(outcome, parse))
  }

  /** `detect_ingredient`. It fails only when the upstream answer decodes to
      something other than a JSON object; otherwise the name is echoed. */
  function DetectIngredient(ingredient: string, outcome: Outcome, parse: string -> ParseResult): (r: Result<Detection>)
    ensures r.Err? <==> ParsedOk(outcome, parse) && !parse(CleanResponse(outcome.body)).value.Object?
    ensures r.Ok? ==> r.value.subject == Ingredient(ingredient)
  {
    Detect(Ingredient(ingredient), outcome, parse)
  }

  /** `detect_food_item`: the same as `detect_ingredient`, echoing under "food_item". */
  function DetectFoodItem(foodName: string, outcome: Outcome, parse: string -> ParseResult): (r: Result<Detection>)
    ensures r.Err? <==> ParsedOk(outcome, parse) && !parse(CleanResponse(outcome.body)).value.Object?
    ensures r.Ok? ==> r.value.subject == FoodItem(foodName)
  {
    Detect(FoodItem(foodName), outcome, parse)
  }

  /** The two mappers differ only in the key that echoes the name: one
      fails exactly when the other does, and otherwise their fields agree. */
  lemma IngredientAndFoodItemAgree(name: string, outcome: Outcome, parse: string -> ParseResult)
    ensures DetectIngredient(name, outcome, parse).Ok? <==> DetectFoodItem(name, outcome, parse).Ok?
    ensures DetectIngredient(name, outcome, parse).Ok? ==>
      DetectIngredient(name, outcome, parse).value.(subject := FoodItem(name)) == DetectFoodItem(name, outcome, parse).value
  {
  }

  /** A failure mapping shapes into the record that carries its four fields. */
  lemma DetectionOfFallback(subject: Subject, status: string, e: string, concern: string)
    ensures ShapeDetection(subject, Fallback(status, e, concern))
      == Ok(Detection(subject, Str(status), Str(e), Str("Low"), Array([Str(concern)])))
  {
    var fields := Fallback(status, e, concern).fields;
    assert "status" in fields && "explanation" in fields;
    assert "confidence" in fields && "concerns" in fields;
  }

  /** A status other than 200 yields the "API Error" record, whatever the body. */
  lemma DetectOnHttpError(subject: Subject, code: int, body: string, parse: string -> ParseResult)
    requires code != 200
    ensures Detect(subject, Http(code, body), parse)
      == Ok(Detection(subject, Str("Error"), Str(HttpErrorText(code)), Str("Low"), Array([Str("API Error")])))
  {
    assert GenerateResponse(Http(code, body), parse) == Fallback("Error", HttpErrorText(code), "API Error");
    DetectionOfFallback(subject, "Error", HttpErrorText(code), "API Error");
  }

  /** A transport exception yields the "Network Error" record carrying its message. */
  lemma DetectOnTransportError(subject: Subject, message: string, parse: string -> ParseResult)
    ensures Detect(subject, Transport(message), parse)
      == Ok(Detection(subject, Str("Error"), Str(message), Str("Low"), Array([Str("Network Error")])))
  {
    DetectionOfFallback(subject, "Error", message, "Network Error");
  }

  /** A 200 body that does not decode yields status "Unknown" and the cleaned text. */
  lemma DetectOnInvalidJson(subject: Subject, body: string, parse: string -> ParseResult)
    requires parse(CleanResponse(body)) == Failed
    ensures Detect(subject, Http(200, body), parse)
      == Ok(Detection(subject, Str("Unknown"), Str(CleanResponse(body)), Str("Low"), Array([Str("Invalid JSON response")])))
  {
    var cleaned := CleanResponse(body);
    assert GenerateResponse(Http(200, body), parse) == Fallback("Unknown", cleaned, "Invalid JSON response");
    DetectionOfFallback(subject, "Unknown", cleaned, "Invalid JSON response");
  }

  // ---------------------------------------------------------------------
  // batch_detect
  // ---------------------------------------------------------------------

  /** The subject `batch_detect` asks about for an item: ingredient mode only
      for the exact type "ingredient", food-item mode for every other value. */
  function SubjectFor(item: string, itemType: string): (s: Subject)
    ensures s.name == item
    ensures s.Ingredient? <==> itemType == "ingredient"
  {
    if itemType == "ingredient" then Ingredient(item) else FoodItem(item)
  }

  /** One iteration of `batch_detect`: the mapper chosen by the item type. */
  function DetectItem(item: string, itemType: string, outcome: Outcome, parse: string -> ParseResult)
    : (r: Result<Detection>)
    ensures r.Ok? ==> r.value.subject == SubjectFor(item, itemType)
  {
    if itemType == "ingredient" then DetectIngredient(item, outcome, parse)
    else DetectFoodItem(item, outcome, parse)
  }

  /** A loop that calls something which may raise and appends each value,
      after its first `n` calls: the values in call order, or the exception
      of the first call that raised. */
  function CollectFirst<T>(rs: seq<Result<T>>, n: nat): Result<seq<T>>
    requires n <= |rs|
  {
    if n == 0 then Ok([])
    else
      match CollectFirst(rs, n - 1)
      case Err(e) => Err(e)
      case Ok(done) =>
        match rs[n - 1]
        case Err(e) => Err(e)
        case Ok(v) => Ok(done + [v])
  }

  /** The same loop run over all the calls. */
  function Collect<T>(rs: seq<Result<T>>): Result<seq<T>> {
    CollectFirst(rs, |rs|)
  }

  /** Once a call has raised, the calls after it do not change the outcome. */
  lemma {:induction false} CollectKeepsError<T>(rs: seq<Result<T>>, i: nat, n: nat)
    requires i <= n <= |rs| && CollectFirst(rs, i).Err?
    ensures CollectFirst(rs, n) == CollectFirst(rs, i)
    decreases n
  {
    if i < n {
      CollectKeepsError(rs, i, n - 1);
    }
  }

  /** The loop completes exactly when no call raises, and then holds every
      call's value in order. */
  lemma {:induction false} CollectSucceeds<T>(rs: seq<Result<T>>, n: nat)
    requires n <= |rs|
    ensures CollectFirst(rs, n).Ok? <==> forall k :: 0 <= k < n ==> rs[k].Ok?
    ensures CollectFirst(rs, n).Ok? ==>
      |CollectFirst(rs, n).value| == n && forall k :: 0 <= k < n ==> CollectFirst(rs, n).value[k] == rs[k].value
    decreases n
  {
    if n > 0 {
      CollectSucceeds(rs, n - 1);
    }
  }

  /** A loop that raised did so at a call every earlier call of which returned. */
  lemma {:induction false} CollectFailsAtFirstError<T>(rs: seq<Result<T>>, n: nat)
    requires n <= |rs| && CollectFirst(rs, n).Err?
    ensures exists k :: 0 <= k < n && rs[k] == Err(CollectFirst(rs, n).error)
                        && forall j :: 0 <= j < k ==> rs[j].Ok?
    decreases n
  {
    var e := CollectFirst(rs, n).error;
    if CollectFirst(rs, n - 1).Err? {
      CollectFailsAtFirstError(rs, n - 1);
      var k :| 0 <= k < n - 1 && rs[k] == Err(e) && forall j :: 0 <= j < k ==> rs[j].Ok?;
      assert 0 <= k < n && rs[k] == Err(e);
    } else {
      CollectSucceeds(rs, n - 1);
      assert rs[n - 1] == Err(e);
      assert forall j :: 0 <= j < n - 1 ==> rs[j].Ok?;
    }
  }

  /** What the mapper returns for each item of a batch, item by item. */
  function ItemResults(items: seq<string>, itemType: string, outcomes: seq<Outcome>, parse: string -> ParseResult)
    : seq<Result<Detection>>
    requires |outcomes| == |items|
  {
    seq(|items|, k requires 0 <= k < |items| => DetectItem(items[k], itemType, outcomes[k], parse))
  }

  /** `batch_detect`: one request per item, in order; `outcomes[i]` is what
      the request for `items[i]` produced. An exception raised for an item
      leaves the loop and is what the whole call raises. */
  method BatchDetect(items: seq<string>, itemType: string, outcomes: seq<Outcome>, parse: string -> ParseResult)
    returns (r: Result<seq<Detection>>)
    requires |outcomes| == |items|
    ensures r == Collect(ItemResults(items, itemType, outcomes, parse))
  {
    ghost var rs := ItemResults(items, itemType, outcomes, parse);
    var results: seq<Detection> := [];
    var i := 0;
    while i < |items|
      invariant 0 <= i <= |items|
      invariant CollectFirst(rs, i) == Ok(results)
    {
      var result := DetectItem(items[i], itemType, outcomes[i], parse);
      assert result == rs[i];
      if result.Err? {
        CollectKeepsError(rs, i + 1, |rs|);
        return Err(result.error);
      }
      results := results + [result.value];
      i := i + 1;
    }
    return Ok(results);
  }

  /** The batch succeeds exactly when every item succeeds. */
  lemma BatchSucceedsIff(items: seq<string>, itemType: string, outcomes: seq<Outcome>, parse: string -> ParseResult)
    requires |outcomes| == |items|
    ensures Collect(ItemResults(items, itemType, outcomes, parse)).Ok?
            <==> forall k :: 0 <= k < |items| ==> DetectItem(items[k], itemType, outcomes[k], parse).Ok?
  {
    var rs := ItemResults(items, itemType, outcomes, parse);
    CollectSucceeds(rs, |rs|);
    if Collect(rs).Ok? {
      forall k | 0 <= k < |items|
        ensures DetectItem(items[k], itemType, outcomes[k], parse).Ok?
      {
        assert rs[k].Ok?;
      }
    } else {
      var k :| 0 <= k < |rs| && !rs[k].Ok?;
      assert !DetectItem(items[k], itemType, outcomes[k], parse).Ok?;
    }
  }

  /** A successful batch holds one record per item, in item order, each the
      record of its own item. */
  lemma BatchRecords(items: seq<string>, itemType: string, outcomes: seq<Outcome>, parse: string -> ParseResult)
    requires |outcomes| == |items|
    requires Collect(ItemResults(items, itemType, outcomes, parse)).Ok?
    ensures var records := Collect(ItemResults(items, itemType, outcomes, parse)).value;
      && |records| == |items|
      && forall k :: 0 <= k < |items| ==>
           && DetectItem(items[k], itemType, outcomes[k], parse) == Ok(records[k])
           && records[k].subject == SubjectFor(items[k], itemType)
  {
    var rs := ItemResults(items, itemType, outcomes, parse);
    CollectSucceeds(rs, |rs|);
    var records := Collect(rs).value;
    forall k | 0 <= k < |items|
      ensures DetectItem(items[k], itemType, outcomes[k], parse) == Ok(records[k])
      ensures records[k].subject == SubjectFor(items[k], itemType)
    {
      assert rs[k] == Ok(records[k]);
    }
  }

  /** A failed batch raises what the first failing item raised. */
  lemma BatchFirstFailure(items: seq<string>, itemType: string, outcomes: seq<Outcome>, parse: string -> ParseResult)
    requires |outcomes| == |items|
    requires Collect(ItemResults(items, itemType, outcomes, parse)).Err?
    ensures exists k ::
      && 0 <= k < |items|
      && DetectItem(items[k], itemType, outcomes[k], parse) == Err(Collect(ItemResults(items, itemType, outcomes, parse)).error)
      && forall j :: 0 <= j < k ==> DetectItem(items[j], itemType, outcomes[j], parse).Ok?
  {
    var rs := ItemResults(items, itemType, outcomes, parse);
    CollectFailsAtFirstError(rs, |rs|);
    var k :| 0 <= k < |rs| && rs[k] == Err(Collect(rs).error) && forall j :: 0 <= j < k ==> rs[j].Ok?;
    forall j | 0 <= j < k
      ensures DetectItem(items[j], itemType, outcomes[j], parse).Ok?
    {
      assert rs[j].Ok?;
    }
    assert DetectItem(items[k], itemType, outcomes[k], parse) == rs[k];
  }

  // ---------------------------------------------------------------------
  // get_halal_alternatives
  // ---------------------------------------------------------------------

  /** A stripped explanation line is offered as an alternative when it is
      non-empty and does not start with "Error". */
  predicate Keep(line: string)
    ensures Keep(line) <==> |line| > 0 && !OccursAt(line, "Error", 0)
  {
    line != "" && !StartsWith(line, "Error")
  }

  /** The stripped lines that pass `Keep`, in their original order. */
  function KeptLines(lines: seq<string>): (r: seq<string>)
    ensures |r| <= |lines|
  {
    if lines == [] then []
    else
      var init := KeptLines(lines[..|lines| - 1]);
      var line := Strip(lines[|lines| - 1]);
      if Keep(line) then init + [line] else init
  }

  /** Filtering commutes with concatenation: the kept lines of a text are
      the kept lines of its first part followed by those of the rest. */
  lemma {:induction false} KeptLinesAppend(a: seq<string>, b: seq<string>)
    ensures KeptLines(a + b) == KeptLines(a) + KeptLines(b)
    decreases |b|
  {
    if b == [] {
      assert a + b == a;
    } else {
      var b' := b[..|b| - 1];
      assert (a + b)[..|a + b| - 1] == a + b';
      KeptLinesAppend(a, b');
    }
  }

  /** Everything kept is the stripped form of some line and passes the filter. */
  lemma {:induction false} KeptLinesSound(lines: seq<string>, x: string)
    requires x in KeptLines(lines)
    ensures Keep(x) && exists i :: 0 <= i < |lines| && Strip(lines[i]) == x
    decreases |lines|
  {
    assert lines != [];
    var n := |lines| - 1;
    var init := lines[..n];
    var last := Strip(lines[n]);
    assert KeptLines(lines) == if Keep(last) then KeptLines(init) + [last] else KeptLines(init);
    if x in KeptLines(init) {
      KeptLinesSound(init, x);
      var i :| 0 <= i < |init| && Strip(init[i]) == x;
      assert Strip(lines[i]) == x;
    } else {
      assert Keep(last) && x == last;
    }
  }

  /** Every line whose stripped form passes the filter is kept. */
  lemma {:induction false} KeptLinesComplete(lines: seq<string>, i: nat)
    requires i < |lines| && Keep(Strip(lines[i]))
    ensures Strip(lines[i]) in KeptLines(lines)
    decreases |lines|
  {
    var n := |lines| - 1;
    var init := lines[..n];
    var last := Strip(lines[n]);
    if i < n {
      assert init[i] == lines[i];
      KeptLinesComplete(init, i);
      if Keep(last) {
        assert KeptLines(lines) == KeptLines(init) + [last];
      }
    } else {
      assert KeptLines(lines) == KeptLines(init) + [last];
    }
  }

  /** Each string as a JSON string value. */
  function AsValues(strs: seq<string>): (vs: seq<Value>)
    ensures |vs| == |strs|
    ensures forall k :: 0 <= k < |vs| ==> vs[k] == Str(strs[k])
  {
    if strs == [] then [] else [Str(strs[0])] + AsValues(strs[1..])
  }

  /** `value[:5]` on the stored `alternatives` entry: a list keeps its first
      five elements, a string its first five characters; any other value is
      not subscriptable. */
  function FirstFive(v: Value): (r: Result<Value>)
    ensures r.Ok? <==> v.Array? || v.Str?
    ensures r.Err? ==> r.error == TypeError
    ensures v.Array? ==>
      && r.value.Array? && r.value.items <= v.items
      && |r.value.items| == if |v.items| <= 5 then |v.items| else 5
    ensures v.Str? ==>
      && r.value.Str? && r.value.s <= v.s
      && |r.value.s| == if |v.s| <= 5 then |v.s| else 5
  {
    match v
    case Array(items) => Ok(Array(Take(items, 5)))
    case Str(s) => Ok(Str(Take(s, 5)))
    case _ => Err(TypeError)
  }

  /** What `get_halal_alternatives` returns for the mapping `response`. */
  function AlternativesOf(response: Value): (r: Result<Value>)
    ensures r.Ok? ==> (r.value.Array? && |r.value.items| <= 5) || (r.value.Str? && |r.value.s| <= 5)
    ensures !response.Object? ==> r == Ok(Array([]))
  {
    if response.Object? && "alternatives" in response.fields then
      FirstFive(response.fields["alternatives"])
    else if response.Object? && "explanation" in response.fields then
      match response.fields["explanation"]
      case Str(e) => Ok(Array(AsValues(Take(KeptLines(Split(e, '\n')), 5))))
      case _ => Err(AttributeError)
    else
      Ok(Array([]))
  }

  /** `get_halal_alternatives` after its request (lines reading the mapping):
      prefer the `alternatives` entry, cut to five; otherwise collect the
      explanation's stripped lines that are non-empty and do not start with
      "Error", and keep the first five. */
  method AlternativesFromResponse(response: Value) returns (r: Result<Value>)
    ensures r == AlternativesOf(response)
  {
    if response.Object? && "alternatives" in response.fields {
      return FirstFive(response.fields["alternatives"]);
    }
    var alternatives: seq<string> := [];
    if response.Object? && "explanation" in response.fields {
      var explanation := response.fields["explanation"];
      if !explanation.Str? {
        return Err(AttributeError);
      }
      var lines := Split(explanation.s, '\n');
      var i := 0;
      while i < |lines|
        invariant 0 <= i <= |lines|
        invariant alternatives == KeptLines(lines[..i])
      {
        var line := Strip(lines[i]);
        assert lines[..i + 1][..i] == lines[..i];
        if line != "" && !StartsWith(line, "Error") {
          alternatives := alternatives + [line];
        }
        i := i + 1;
      }
      assert lines[..|lines|] == lines;
    }
    return Ok(Array(AsValues(Take(alternatives, 5))));
  }

  /** `get_halal_alternatives`: one request, then the mapping is read as above. */
  method GetHalalAlternatives(outcome: Outcome, parse: string -> ParseResult) returns (r: Result<Value>)
    ensures r == AlternativesOf(GenerateResponse(outcome, parse))
    ensures r.Ok? ==> (r.value.Array? && |r.value.items| <= 5) || (r.value.Str? && |r.value.s| <= 5)
  {
    var response := GenerateResponse(outcome, parse);
    r := AlternativesFromResponse(response);
  }

  /** With a list under `alternatives`, the result is its first five entries
      (all of them when there are fewer). */
  lemma AlternativesFromList(fields: map<string, Value>, xs: seq<Value>)
    requires "alternatives" in fields && fields["alternatives"] == Array(xs)
    ensures AlternativesOf(Object(fields)) == Ok(Array(if |xs| <= 5 then xs else xs[..5]))
  {
  }

  /** Without `alternatives`, the results are the first five kept lines of
      the explanation, in their original order. */
  lemma AlternativesFromExplanation(fields: map<string, Value>, e: string)
    requires "alternatives" !in fields
    requires "explanation" in fields && fields["explanation"] == Str(e)
    ensures var r := AlternativesOf(Object(fields));
      && r.Ok? && r.value.Array?
      && r.value.items == AsValues(Take(KeptLines(Split(e, '\n')), 5))
  {
  }

  /** Every offered alternative is the stripped form of some line of the
      explanation: non-empty, not starting with "Error", and without
      whitespace at either edge. */
  lemma AlternativeFromSomeLine(e: string, x: string)
    requires x in Take(KeptLines(Split(e, '\n')), 5)
    ensures Keep(x) && NoEdgeSpace(x)
    ensures exists i :: 0 <= i < |Split(e, '\n')| && Strip(Split(e, '\n')[i]) == x
  {
    var kept := KeptLines(Split(e, '\n'));
    var k :| 0 <= k < |Take(kept, 5)| && Take(kept, 5)[k] == x;
    assert kept[k] == x;
    KeptLinesSound(Split(e, '\n'), x);
  }

  /** A failure mapping has no `alternatives` entry, so its explanation is
      what the heuristic reads. */
  lemma AlternativesOfFallback(status: string, e: string, concern: string)
    ensures AlternativesOf(Fallback(status, e, concern))
      == Ok(Array(AsValues(Take(KeptLines(Split(e, '\n')), 5))))
  {
    assert "alternatives" !in Fallback(status, e, concern).fields;
  }

  /** A single stripped line not starting with "Error" is kept as it is. */
  lemma SingleLineKept(e: string)
    requires '\n' !in e && NoEdgeSpace(e) && Keep(e)
    ensures KeptLines(Split(e, '\n')) == [e]
    ensures AsValues(Take(KeptLines(Split(e, '\n')), 5)) == [Str(e)]
  {
    SplitWithoutSeparator(e, '\n');
    StripKeeps(e);
    assert [e][..0] == [];
    assert Take([e], 5) == [e];
  }

  /** "HTTP <code>" is a single line, already stripped, that the filter keeps. */
  lemma HttpExplanationKept(code: int)
    ensures AsValues(Take(KeptLines(Split(HttpErrorText(code), '\n')), 5))
      == [Str(HttpErrorText(code))]
  {
    var e := HttpErrorText(code);
    assert e[0] == e[..5][0] == 'H';
    assert !StartsWith(e, "Error") by {
      assert e[..5][0] != "Error"[0];
    }
    assert NoEdgeSpace(e) by {
      assert IsDigit(e[|e| - 1]);
    }
    SingleLineKept(e);
  }

  /** After a status other than 200, "HTTP <code>" is offered as the one
      alternative. */
  lemma AlternativesOnHttpError(code: int, body: string, parse: string -> ParseResult)
    requires code != 200
    ensures AlternativesOf(GenerateResponse(Http(code, body), parse))
      == Ok(Array([Str(HttpErrorText(code))]))
  {
    var e := HttpErrorText(code);
    var response := GenerateResponse(Http(code, body), parse);
    assert response == Fallback("Error", e, "API Error");
    AlternativesOfFallback("Error", e, "API Error");
    HttpExplanationKept(code);
  }

  /** A sixth entry under `alternatives` is dropped. */
  lemma AlternativesTruncateExample()
    ensures AlternativesOf(Object(map["alternatives" := Array([Str("a"), Str("b"), Str("c"), Str("d"), Str("e"), Str("f")])]))
      == Ok(Array([Str("a"), Str("b"), Str("c"), Str("d"), Str("e")]))
  {
    var xs := [Str("a"), Str("b"), Str("c"), Str("d"), Str("e"), Str("f")];
    AlternativesFromList(map["alternatives" := Array(xs)], xs);
    assert xs[..5] == [Str("a"), Str("b"), Str("c"), Str("d"), Str("e")];
  }

  /** The explanation of the worked example, as its four lines. */
  lemma ExampleExplanationLines()
    ensures Split("X\n\nError: bad\nY", '\n') == ["X", "", "Error: bad", "Y"]
  {
    var parts := ["X", "", "Error: bad", "Y"];
    assert Join(parts, '\n') == "X\n\nError: bad\nY";
    SplitJoin(parts, '\n');
  }

  /** Of those four lines, the blank one and the one starting with "Error"
      are dropped. */
  lemma ExampleExplanationKept()
    ensures KeptLines(["X", "", "Error: bad", "Y"]) == ["X", "Y"]
  {
    StripKeeps("X");
    StripKeeps("Error: bad");
    StripKeeps("Y");
    assert !Keep("Error: bad") by {
      assert "Error: bad"[..5] == "Error";
    }
    assert KeptLines(["X"]) == ["X"] by {
      assert ["X"][..0] == [];
    }
    assert KeptLines(["X", ""]) == ["X"] by {
      assert ["X", ""][..1] == ["X"];
    }
    assert KeptLines(["X", "", "Error: bad"]) == ["X"] by {
      assert ["X", "", "Error: bad"][..2] == ["X", ""];
    }
    assert ["X", "", "Error: bad", "Y"][..3] == ["X", "", "Error: bad"];
  }

  /** When the explanation's kept lines are known and there are at most five
      of them, they are the alternatives, in order. */
  lemma AlternativesFromKeptLines(fields: map<string, Value>, e: string, kept: seq<string>)
    requires "alternatives" !in fields
    requires "explanation" in fields && fields["explanation"] == Str(e)
    requires KeptLines(Split(e, '\n')) == kept && |kept| <= 5
    ensures AlternativesOf(Object(fields)) == Ok(Array(AsValues(kept)))
  {
    AlternativesFromExplanation(fields, e);
  }

  /** A mapping whose only entry is the explanation "X\n\nError: bad\nY"
      yields the alternatives ["X", "Y"]. */
  lemma AlternativesExplanationExample(e: string)
    requires e == "X\n\nError: bad\nY"
    ensures AlternativesOf(Object(map["explanation" := Str(e)])) == Ok(Array([Str("X"), Str("Y")]))
  {
    assert KeptLines(Split(e, '\n')) == ["X", "Y"] by {
      ExampleExplanationLines();
      ExampleExplanationKept();
    }
    assert AsValues(["X", "Y"]) == [Str("X"), Str("Y")];
    AlternativesFromKeptLines(map["explanation" := Str(e)], e, ["X", "Y"]);
  }

  // ---------------------------------------------------------------------
  // verify_certification
  // ---------------------------------------------------------------------

  /** The record of `verify_certification`. */
  datatype Certification = Certification(
    brand: string,
    product: string,
    hasCertification: Value,
    certifyingBody: Value,
    reliability: Value,
    details: Value)

  /** The dictionary literal of `verify_certification`: brand and product are
      echoed, three fields are copied or defaulted, and `details` falls back
      to the explanation before its own default. */
  function ShapeCertification(brand: string, product: string, response: Value): (r: Result<Certification>)
    ensures r.Err? <==> !response.Object?
    ensures r.Err? ==> r.error == AttributeError
    ensures r.Ok? ==>
      && r.value.brand == brand && r.value.product == product
      && CopiedOrDefault(response.fields, "has_certification", Bool(false), r.value.hasCertification)
      && CopiedOrDefault(response.fields, "certifying_body", Str("Unknown"), r.value.certifyingBody)
      && CopiedOrDefault(response.fields, "reliability", Str("Low"), r.value.reliability)
      && ("details" in response.fields ==> r.value.details == response.fields["details"])
      && ("details" !in response.fields ==>
            CopiedOrDefault(response.fields, "explanation", Str("No details available"), r.value.details))
  {
    match response
    case Object(fields) =>
      Ok(Certification(
        brand,
        product,
        Get(fields, "has_certification", Bool(false)),
        Get(fields, "certifying_body", Str("Unknown")),
        Get(fields, "reliability", Str("Low")),
        Get(fields, "details", Get(fields, "explanation", Str("No details available")))))
    case _ => Err(AttributeError)
  }

  /** `verify_certification`. */
  function VerifyCertification(brand: string, product: string, outcome: Outcome, parse: string -> ParseResult)
    : (r: Result<Certification>)
    ensures r.Err? <==> ParsedOk(outcome, parse) && !parse(CleanResponse(outcome.body)).value.Object?
    ensures r.Ok? ==> r.value.brand == brand && r.value.product == product
  {
    ShapeCertification(brand, product, GenerateResponse(outcome, parse))
  }

  /** A failure mapping carries none of the certification keys, so every
      default applies except `details`, which takes the explanation. */
  lemma CertificationOfFallback(brand: string, product: string, status: string, e: string, concern: string)
    ensures ShapeCertification(brand, product, Fallback(status, e, concern))
      == Ok(Certification(brand, product, Bool(false), Str("Unknown"), Str("Low"), Str(e)))
  {
    var fields := Fallback(status, e, concern).fields;
    assert "details" !in fields && "has_certification" !in fields;
    assert "certifying_body" !in fields && "reliability" !in fields;
  }

  /** When the request failed or the answer did not decode, the record holds
      every default except `details`, which carries the failure explanation. */
  lemma CertificationOnFailure(brand: string, product: string, outcome: Outcome, parse: string -> ParseResult)
    requires !ParsedOk(outcome, parse)
    ensures var r := VerifyCertification(brand, product, outcome, parse);
      && r.Ok?
      && r.value.hasCertification == Bool(false)
      && r.value.certifyingBody == Str("Unknown")
      && r.value.reliability == Str("Low")
      && r.value.details == GenerateResponse(outcome, parse).fields["explanation"]
      && r.value.details.Str?
  {
    match outcome
    case Transport(message) =>
      assert GenerateResponse(outcome, parse) == Fallback("Error", message, "Network Error");
      CertificationOfFallback(brand, product, "Error", message, "Network Error");
      assert GenerateResponse(outcome, parse).fields["explanation"] == Str(message);
    case Http(code, body) =>
      if code == 200 {
        var cleaned := CleanResponse(body);
        assert GenerateResponse(outcome, parse) == Fallback("Unknown", cleaned, "Invalid JSON response");
        CertificationOfFallback(brand, product, "Unknown", cleaned, "Invalid JSON response");
        assert GenerateResponse(outcome, parse).fields["explanation"] == Str(cleaned);
      } else {
        var e := HttpErrorText(code);
        assert GenerateResponse(outcome, parse) == Fallback("Error", e, "API Error");
        CertificationOfFallback(brand, product, "Error", e, "API Error");
        assert GenerateResponse(outcome, parse).fields["explanation"] == Str(e);
      }
  }
}
