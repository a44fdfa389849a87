/**
 * The `/predict` request handler of the inference service
 * (ml_inference/predict_service.py).
 *
 * The handler is straight-line code with early returns, so it is modelled as
 * a pure function from the parsed request body and the three loaded artifacts
 * (encoder, vectorizer, classifier) to the HTTP response.  The artifacts are
 * foreign code: each is a function value that returns a tagged outcome (the
 * shape of what it computed, or the exception it raised).  Besides the
 * response, the handler's result records the calls it made into the
 * artifacts, in order, so that "which stage runs when" can be stated.
 */
module PredictService {

  datatype Option<T> = None | Some(value: T)

  // ---------------------------------------------------------------------------
  // The request body
  // ---------------------------------------------------------------------------

  /** A parsed JSON value; a missing or null body is `JNull`. */
  datatype Json =
    | JNull
    | JBool(b: bool)
    | JNum(n: real)
    | JStr(s: string)
    | JArr(items: seq<Json>)
    | JObj(fields: map<string, Json>)

  /** Python truthiness, as tested by `not data`. */
  predicate Truthy(data: Json) {
    match data
    case JNull => false
    case JBool(b) => b
    case JNum(n) => n != 0.0
    case JStr(s) => s != ""
    case JArr(items) => items != []
    case JObj(fields) => fields != map[]
  }

  /** Python's `sub in s` on two strings. */
  predicate Contains(s: string, sub: string)
    decreases |s|
  {
    sub <= s || (s != [] && Contains(s[1..], sub))
  }

  ghost predicate OccursAt(s: string, sub: string, i: int) {
    0 <= i && i + |sub| <= |s| && s[i..i + |sub|] == sub
  }

  lemma OccursAtShift(s: string, sub: string, i: nat)
    requires s != []
    ensures OccursAt(s[1..], sub, i) <==> OccursAt(s, sub, i + 1)
  {
    if i + 1 + |sub| <= |s| {
      assert s[1..][i..i + |sub|] == s[i + 1..i + 1 + |sub|];
    }
  }

  /** `Contains` finds `sub` exactly when it occurs somewhere in `s`. */
  lemma {:induction false} ContainsIffOccurs(s: string, sub: string)
    ensures Contains(s, sub) <==> exists i :: OccursAt(s, sub, i)
    decreases |s|
  {
    if sub <= s {
      assert OccursAt(s, sub, 0);
    } else if s == [] {
      forall i ensures !OccursAt(s, sub, i) {
        assert OccursAt(s, sub, i) ==> sub == [];
      }
    } else {
      ContainsIffOccurs(s[1..], sub);
      if Contains(s[1..], sub) {
        var i :| OccursAt(s[1..], sub, i);
        OccursAtShift(s, sub, i);
      } else {
        forall i ensures !OccursAt(s, sub, i) {
          if i >= 1 {
            OccursAtShift(s, sub, i - 1);
          } else {
            assert OccursAt(s, sub, i) ==> sub <= s;
          }
        }
      }
    }
  }

  /** What `key in data` does: a test on a dict, list or string, a TypeError otherwise. */
  datatype Membership = Member | NotMember | NotIterable

  function KeyIn(key: string, data: Json): Membership {
    match data
    case JObj(fields) => if key in fields then Member else NotMember
    case JArr(items) => if JStr(key) in items then Member else NotMember
    case JStr(s) => if Contains(s, key) then Member else NotMember
    case _ => NotIterable
  }

  /** Outcome of the guard `not data or 'Hostname' not in data or ...`. */
  datatype Check = Rejected | Accepted | CheckRaised

  function CheckFields(data: Json): Check {
    if !Truthy(data) then Rejected
    else if KeyIn("Hostname", data) == NotIterable then CheckRaised
    else if KeyIn("Hostname", data) == NotMember
         || KeyIn("Process", data) == NotMember
         || KeyIn("Message", data) == NotMember then Rejected
    else Accepted
  }

  // ---------------------------------------------------------------------------
  // Artifacts and feature shapes
  // ---------------------------------------------------------------------------

  /** What a transform call does: the shape of the matrix it returns, or the exception it raises. */
  datatype Transformed = Ok(rows: nat, width: nat) | ValueErr(msg: string) | OtherErr(msg: string)

  /** What `model.predict` does: the label array it returns, or the exception it raises. */
  datatype Predicted = Labels(labels: seq<int>) | PredictErr(msg: string)

  /**
   * A feature block.  A block records the inputs its values were computed
   * from, so that the classifier (a function of the features) may depend on
   * them; the fallback block of zeros depends on nothing.
   */
  datatype Block =
    | Encoded(hostname: Json, process: Json, rows: nat, width: nat)
    | Zeros(rows: nat, width: nat)
    | Vectorized(message: Json, rows: nat, width: nat)

  /** `np.hstack([categorical, message])`. */
  datatype Features = HStack(categorical: Block, message: Block)

  function Width(f: Features): nat {
    f.categorical.width + f.message.width
  }

  /** The three artifacts, loaded once at startup and never changed afterwards. */
  datatype Artifacts = Artifacts(
    encoderTransform: (Json, Json) -> Transformed,
    vectorizerTransform: Json -> Transformed,
    modelPredict: Features -> Predicted,
    hostnameCategories: nat,
    processCategories: nat)

  /** `n_categorical_features_expected`: the sizes of the encoder's two category lists added. */
  function CategoricalWidth(a: Artifacts): nat {
    a.hostnameCategories + a.processCategories
  }

  // ---------------------------------------------------------------------------
  // Responses
  // ---------------------------------------------------------------------------

  datatype Failure =
    | MissingFields
    | CategoricalEncoding
    | MessageVectorization
    | ShapeMismatch
    | PredictionFailed
    | InternalError

  /**
   * `Answer(p)` is status 200 with `{"anomaly_prediction": p}`;
   * `Error(f, cause)` is `{"error": Prefix(f) + cause}` with status `Status(f)`.
   */
  datatype Response = Answer(anomalyPrediction: int) | Error(failure: Failure, cause: string)

  /**
   * The text that starts each `error` field.  The two fixed messages are
   * written as two pieces because the verifier does not look inside string
   * literals this long.
   */
  function Prefix(f: Failure): string {
    match f
    case MissingFields => "Missing required fields: " + "Hostname, Process, Message"
    case CategoricalEncoding => "Categorical encoding failed: "
    case MessageVectorization => "Message vectorization failed: "
    case ShapeMismatch => "Internal shape mismatch " + "during feature combination"
    case PredictionFailed => "Prediction failed: "
    case InternalError => "An internal server error occurred: "
  }

  /** The two failures whose message is fixed and carries no exception text. */
  predicate FixedMessage(f: Failure) {
    f.MissingFields? || f.ShapeMismatch?
  }

  function StatusOf(r: Response): nat {
    match r
    case Answer(_) => 200
    case Error(f, _) => if f.MissingFields? then 400 else 500
  }

  function ErrorText(r: Response): string
    requires r.Error?
  {
    Prefix(r.failure) + r.cause
  }

  predicate WellFormed(r: Response) {
    r.Error? && FixedMessage(r.failure) ==> r.cause == ""
  }

  /** Reads back the failing stage from the text of an `error` field. */
  function FailureOf(text: string): Option<Failure> {
    if text == Prefix(MissingFields) then Some(MissingFields)
    else if text == Prefix(ShapeMismatch) then Some(ShapeMismatch)
    else if Prefix(CategoricalEncoding) <= text then Some(CategoricalEncoding)
    else if Prefix(MessageVectorization) <= text then Some(MessageVectorization)
    else if Prefix(PredictionFailed) <= text then Some(PredictionFailed)
    else if Prefix(InternalError) <= text then Some(InternalError)
    else None
  }

  /** The first two characters of each prefix, which already tell the prefixes apart. */
  function Lead(f: Failure): (lead: (char, char))
    ensures |Prefix(f)| >= 2 && Prefix(f)[0] == lead.0 && Prefix(f)[1] == lead.1
  {
    match f
    case MissingFields => ('M', 'i')
    case CategoricalEncoding => ('C', 'a')
    case MessageVectorization => ('M', 'e')
    case ShapeMismatch => ('I', 'n')
    case PredictionFailed => ('P', 'r')
    case InternalError => ('A', 'n')
  }

  lemma PrefixesDiffer(f: Failure, g: Failure, cause: string)
    requires f != g
    ensures !(Prefix(g) <= Prefix(f) + cause)
  {
    var t := Prefix(f) + cause;
    var lf, lg := Lead(f), Lead(g);
    assert t[0] == lf.0 && t[1] == lf.1;
    assert lf != lg;
  }

  /** Every stage's error text names that stage: the text alone recovers it. */
  lemma FailureOfErrorText(r: Response)
    requires r.Error? && WellFormed(r)
    ensures FailureOf(ErrorText(r)) == Some(r.failure)
  {
    var f, t := r.failure, ErrorText(r);
    forall g | g != f ensures !(Prefix(g) <= t) {
      PrefixesDiffer(f, g, r.cause);
    }
    assert Prefix(f) <= t;
    if f.MissingFields? || f.ShapeMismatch? {
      assert t == Prefix(f);
    }
  }

  /** Corollary: failures of different stages never produce the same error text. */
  lemma ErrorTextsDistinguishStages(r1: Response, r2: Response)
    requires r1.Error? && WellFormed(r1) && r2.Error? && WellFormed(r2)
    requires r1.failure != r2.failure
    ensures ErrorText(r1) != ErrorText(r2)
  {
    FailureOfErrorText(r1);
    FailureOfErrorText(r2);
  }

  // ---------------------------------------------------------------------------
  // The pipeline
  // ---------------------------------------------------------------------------

  /** A call made into an artifact, with the argument it was given. */
  datatype Call =
    | EncoderCall(hostname: Json, process: Json)
    | VectorizerCall(message: Json)
    | ModelCall(features: Features)

  /** The response of one request and the artifact calls made while handling it. */
  datatype Run = Run(response: Response, calls: seq<Call>)

  /** A stage either hands a value to the next stage or ends the request with a response. */
  datatype Step<T> = Next(value: T) | Halt(response: Response)

  const UnknownCategories: string := "unknown categories"

  function EncodeCategorical(a: Artifacts, hostname: Json, process: Json): Step<Block> {
    match a.encoderTransform(hostname, process)
    case Ok(rows, width) => Next(Encoded(hostname, process, rows, width))
    case ValueErr(msg) =>
      if Contains(msg, UnknownCategories) then Next(Zeros(1, CategoricalWidth(a)))
      else Halt(Error(CategoricalEncoding, msg))
    case OtherErr(msg) => Halt(Error(CategoricalEncoding, msg))
  }

  function VectorizeMessage(a: Artifacts, message: Json): Step<Block> {
    match a.vectorizerTransform(message)
    case Ok(rows, width) => Next(Vectorized(message, rows, width))
    case ValueErr(msg) => Halt(Error(MessageVectorization, msg))
    case OtherErr(msg) => Halt(Error(MessageVectorization, msg))
  }

  function Combine(categorical: Block, message: Block): Step<Features> {
    if categorical.rows != message.rows then Halt(Error(ShapeMismatch, ""))
    else Next(HStack(categorical, message))
  }

  /** `int(model.predict(features)[0])`; an empty label array raises IndexError. */
  function RunModel(a: Artifacts, features: Features): Response {
    match a.modelPredict(features)
    case Labels(labels) => if |labels| == 0 then Error(PredictionFailed, "") else Answer(labels[0])
    case PredictErr(msg) => Error(PredictionFailed, msg)
  }

  /** One POST to `/predict`. */
  function HandlePredict(a: Artifacts, data: Json): (run: Run)
    ensures StatusOf(run.response) == 400 <==> CheckFields(data) == Rejected
    ensures WellFormed(run.response)
    ensures |run.calls| <= 3
    ensures forall i :: 0 <= i < |run.calls| ==> (run.calls[i].ModelCall? <==> i == 2)
    ensures run.response.Answer? ==> |run.calls| == 3
  {
    match CheckFields(data)
    case Rejected => Run(Error(MissingFields, ""), [])
    case CheckRaised => Run(Error(InternalError, ""), [])
    case Accepted =>
      if !data.JObj? then Run(Error(InternalError, ""), [])
      else
        var hostname, process, message :=
          data.fields["Hostname"], data.fields["Process"], data.fields["Message"];
        var encode := EncoderCall(hostname, process);
        match EncodeCategorical(a, hostname, process)
        case Halt(r) => Run(r, [encode])
        case Next(categorical) =>
          var vectorize := VectorizerCall(message);
          match VectorizeMessage(a, message)
          case Halt(r) => Run(r, [encode, vectorize])
          case Next(msg) =>
            match Combine(categorical, msg)
            case Halt(r) => Run(r, [encode, vectorize])
            case Next(features) =>
              Run(RunModel(a, features), [encode, vectorize, ModelCall(features)])
  }

  // ---------------------------------------------------------------------------
  // What the handler promises
  // ---------------------------------------------------------------------------

  predicate HasRequiredKeys(fields: map<string, Json>) {
    "Hostname" in fields && "Process" in fields && "Message" in fields
  }

  /** A missing, null or otherwise falsy body is refused with 400 before any artifact is called. */
  lemma FalsyBodyRejected(a: Artifacts, data: Json)
    requires !Truthy(data)
    ensures HandlePredict(a, data) == Run(Error(MissingFields, ""), [])
    ensures StatusOf(HandlePredict(a, data).response) == 400
  {
  }

  /**
   * For an object body, 400 with the fixed message happens exactly when one
   * of the three keys is absent, and then no artifact is called.
   */
  lemma ObjectBodyValidation(a: Artifacts, fields: map<string, Json>)
    ensures HandlePredict(a, JObj(fields)).response == Error(MissingFields, "")
            <==> !HasRequiredKeys(fields)
    ensures !HasRequiredKeys(fields) ==> HandlePredict(a, JObj(fields)).calls == []
  {
  }

  /**
   * Only key presence is checked: whatever JSON values the three keys hold,
   * the encoder receives the Hostname and Process values and the vectorizer,
   * if reached, the Message value, unchanged.
   */
  lemma ValuesPassedUnchanged(a: Artifacts, fields: map<string, Json>)
    requires HasRequiredKeys(fields)
    ensures var run := HandlePredict(a, JObj(fields));
      && |run.calls| >= 1
      && run.calls[0] == EncoderCall(fields["Hostname"], fields["Process"])
      && (|run.calls| >= 2 ==> run.calls[1] == VectorizerCall(fields["Message"]))
      && run.response != Error(MissingFields, "")
      && !(run.response.Error? && run.response.failure.InternalError?)
  {
  }

  /**
   * A body that is truthy but not an object never reaches the artifacts: `in`
   * on a number or boolean, or subscripting a list or string, raises a
   * TypeError that the outermost handler turns into a 500.
   */
  lemma NonObjectBody(a: Artifacts, data: Json)
    requires Truthy(data) && !data.JObj?
    ensures var run := HandlePredict(a, data);
      && run.calls == []
      && (CheckFields(data) == Rejected ==> run.response == Error(MissingFields, ""))
      && (CheckFields(data) != Rejected ==> run.response == Error(InternalError, ""))
  {
  }

  /**
   * An encoder ValueError mentioning unknown categories does not end the
   * request: the categorical block becomes a 1 x C block of zeros and the
   * message is vectorized.  If the vectorizer returns one row of width w, the
   * classifier is called on the zeros followed by that row, of width C + w.
   */
  lemma UnknownCategoryFallback(a: Artifacts, fields: map<string, Json>, msg: string)
    requires HasRequiredKeys(fields)
    requires a.encoderTransform(fields["Hostname"], fields["Process"]) == ValueErr(msg)
    requires Contains(msg, UnknownCategories)
    ensures var run := HandlePredict(a, JObj(fields));
      && |run.calls| >= 2
      && run.calls[1] == VectorizerCall(fields["Message"])
      && !(run.response.Error? && run.response.failure.CategoricalEncoding?)
    ensures var run := HandlePredict(a, JObj(fields));
      var v := a.vectorizerTransform(fields["Message"]);
      v.Ok? && v.rows == 1 ==>
        && |run.calls| == 3
        && run.calls[2] == ModelCall(HStack(Zeros(1, CategoricalWidth(a)), Vectorized(fields["Message"], 1, v.width)))
        && Width(run.calls[2].features) == CategoricalWidth(a) + v.width
  {
  }

  /**
   * With the fallback taken, the response no longer depends on the Hostname
   * and Process values: two requests with the same Message whose categories
   * are both unknown get the same response.
   */
  lemma FallbackIgnoresCategories(a: Artifacts, f1: map<string, Json>, f2: map<string, Json>, m1: string, m2: string)
    requires HasRequiredKeys(f1) && HasRequiredKeys(f2)
    requires f1["Message"] == f2["Message"]
    requires a.encoderTransform(f1["Hostname"], f1["Process"]) == ValueErr(m1) && Contains(m1, UnknownCategories)
    requires a.encoderTransform(f2["Hostname"], f2["Process"]) == ValueErr(m2) && Contains(m2, UnknownCategories)
    ensures HandlePredict(a, JObj(f1)).response == HandlePredict(a, JObj(f2)).response
  {
  }

  /**
   * Any other encoder failure (a ValueError without that phrase, or any
   * other exception) ends the request with 500 "Categorical encoding
   * failed: ..." and neither the vectorizer nor the classifier is called.
   */
  lemma EncoderFailureStops(a: Artifacts, fields: map<string, Json>, msg: string)
    requires HasRequiredKeys(fields)
    requires var e := a.encoderTransform(fields["Hostname"], fields["Process"]);
      e == OtherErr(msg) || (e == ValueErr(msg) && !Contains(msg, UnknownCategories))
    ensures var run := HandlePredict(a, JObj(fields));
      && run.response == Error(CategoricalEncoding, msg)
      && StatusOf(run.response) == 500
      && ErrorText(run.response) == "Categorical encoding failed: " + msg
      && run.calls == [EncoderCall(fields["Hostname"], fields["Process"])]
  {
  }

  /** A vectorizer failure ends the request with 500 "Message vectorization failed: ..." before the classifier. */
  lemma VectorizerFailureStops(a: Artifacts, fields: map<string, Json>, msg: string)
    requires HasRequiredKeys(fields)
    requires EncodeCategorical(a, fields["Hostname"], fields["Process"]).Next?
    requires var v := a.vectorizerTransform(fields["Message"]);
      v == ValueErr(msg) || v == OtherErr(msg)
    ensures var run := HandlePredict(a, JObj(fields));
      && run.response == Error(MessageVectorization, msg)
      && StatusOf(run.response) == 500
      && ErrorText(run.response) == "Message vectorization failed: " + msg
      && run.calls == [EncoderCall(fields["Hostname"], fields["Process"]), VectorizerCall(fields["Message"])]
  {
  }

  /**
   * The classifier is reached exactly when both blocks exist and have the same
   * number of rows; otherwise (a row-count mismatch) the request ends with 500
   * and the fixed internal-mismatch message.
   */
  lemma RowCountCheck(a: Artifacts, fields: map<string, Json>)
    requires HasRequiredKeys(fields)
    requires EncodeCategorical(a, fields["Hostname"], fields["Process"]).Next?
    requires VectorizeMessage(a, fields["Message"]).Next?
    ensures var run := HandlePredict(a, JObj(fields));
      var c := EncodeCategorical(a, fields["Hostname"], fields["Process"]).value;
      var m := VectorizeMessage(a, fields["Message"]).value;
      && (c.rows != m.rows <==> run.response == Error(ShapeMismatch, ""))
      && (c.rows != m.rows ==> |run.calls| == 2 && ErrorText(run.response) == Prefix(ShapeMismatch))
      && (c.rows == m.rows ==> |run.calls| == 3 && run.calls[2] == ModelCall(HStack(c, m)))
  {
  }

  /**
   * When the classifier is called, its input is the categorical block followed
   * by the message block, built from this request's values, and its width is
   * the sum of the two widths.
   */
  lemma CombinedFeatures(a: Artifacts, fields: map<string, Json>)
    requires HasRequiredKeys(fields)
    requires |HandlePredict(a, JObj(fields)).calls| == 3
    ensures var f := HandlePredict(a, JObj(fields)).calls[2].features;
      var e := a.encoderTransform(fields["Hostname"], fields["Process"]);
      var v := a.vectorizerTransform(fields["Message"]);
      && v.Ok?
      && f.message == Vectorized(fields["Message"], v.rows, v.width)
      && f.categorical.rows == f.message.rows
      && (e.Ok? ==> f.categorical == Encoded(fields["Hostname"], fields["Process"], e.rows, e.width))
      && (!e.Ok? ==> f.categorical == Zeros(1, CategoricalWidth(a)) && v.rows == 1)
      && Width(f) == (if e.Ok? then e.width else CategoricalWidth(a)) + v.width
  {
  }

  /**
   * The classifier is called at most once and only after every earlier stage
   * succeeded; a 200 carries the first predicted label, any exception from the
   * classifier (or an empty label array) gives 500 "Prediction failed: ...".
   */
  lemma PredictionOutcome(a: Artifacts, data: Json)
    ensures var run := HandlePredict(a, data);
      && (run.response.Answer? ==> StatusOf(run.response) == 200)
      && (|run.calls| == 3 ==>
            && run.calls[0].EncoderCall? && run.calls[1].VectorizerCall?
            && var p := a.modelPredict(run.calls[2].features);
               run.response == (if p.PredictErr? then Error(PredictionFailed, p.msg)
                                else if p.labels == [] then Error(PredictionFailed, "")
                                else Answer(p.labels[0])))
      && (|run.calls| < 3 ==> run.response.Error? && !run.response.failure.PredictionFailed?)
  {
  }

  // ---------------------------------------------------------------------------
  // Successive requests
  // ---------------------------------------------------------------------------

  /** The responses to a sequence of requests served by one process with the same artifacts. */
  function ServeAll(a: Artifacts, bodies: seq<Json>): (responses: seq<Response>)
    ensures |responses| == |bodies|
  {
    if bodies == [] then []
    else [HandlePredict(a, bodies[0]).response] + ServeAll(a, bodies[1..])
  }

  /** No state carries over: each response depends only on its own request. */
  lemma {:induction false} ServeAllIsPointwise(a: Artifacts, bodies: seq<Json>, i: nat)
    requires i < |bodies|
    ensures ServeAll(a, bodies)[i] == HandlePredict(a, bodies[i]).response
  {
    if i > 0 {
      ServeAllIsPointwise(a, bodies[1..], i - 1);
    }
  }

  /** Submitting the same body twice, with anything in between, gives the same response. */
  lemma RepeatedRequestSameResponse(a: Artifacts, bodies: seq<Json>, i: nat, j: nat)
    requires i < |bodies| && j < |bodies| && bodies[i] == bodies[j]
    ensures ServeAll(a, bodies)[i] == ServeAll(a, bodies)[j]
  {
    ServeAllIsPointwise(a, bodies, i);
    ServeAllIsPointwise(a, bodies, j);
  }
}
