/** The API's exception filter for validation failures: the failures are
    grouped by property name into a map from property to its messages, and
    the exception is answered with a bad-request result carrying that map. */
module ValidationFilter {
  import opened Wrappers

  datatype ValidationFailure = ValidationFailure(propertyName: string, errorMessage: string)

  /** The exception the filter sees: a validation exception with its
      failures, or any other exception. */
  datatype Exception =
    | ValidationException(errors: seq<ValidationFailure>)
    | OtherException(message: string)

  /** The anonymous body object of the result. `errors` is the dictionary and
      `errorKeys` the order of its keys, in which the serialiser writes them. */
  datatype ErrorBody = ErrorBody(kind: string, title: string, status: int,
                                 errorKeys: seq<string>, errors: map<string, seq<string>>)

  datatype ActionResult = BadRequestObjectResult(statusCode: int, body: ErrorBody)

  datatype ExceptionContext = ExceptionContext(exception: Exception, result: Option<ActionResult>, exceptionHandled: bool)

  const ValidationErrorKind: string := "ValidationError"
  const ValidationErrorTitle: string := "One or more validation errors occurred."
  /** The status written into the body. */
  const BodyStatus: int := 422
  /** The status of a `BadRequestObjectResult`. */
  const BadRequestStatus: int := 400

  // ---------------------------------------------------------------------------
  // Reference definitions, by the last failure.

  /** The messages of the failures for property `p`, in their original order. */
  function MessagesFor(errors: seq<ValidationFailure>, p: string): (ms: seq<string>)
    ensures |ms| <= |errors|
    decreases |errors|
  {
    if |errors| == 0 then []
    else
      var last := errors[|errors| - 1];
      MessagesFor(errors[..|errors| - 1], p) + (if last.propertyName == p then [last.errorMessage] else [])
  }

  /** The distinct property names, in order of first appearance. */
  function PropertyNames(errors: seq<ValidationFailure>): (ks: seq<string>)
    ensures |ks| <= |errors|
    decreases |errors|
  {
    if |errors| == 0 then []
    else
      var rest := PropertyNames(errors[..|errors| - 1]);
      var p := errors[|errors| - 1].propertyName;
      if p in rest then rest else rest + [p]
  }

  predicate Distinct(ks: seq<string>) {
    forall i, j :: 0 <= i < j < |ks| ==> ks[i] != ks[j]
  }

  /** The total number of messages filed under the keys `ks`. */
  function TotalMessages(errors: seq<ValidationFailure>, ks: seq<string>): nat
    decreases |ks|
  {
    if |ks| == 0 then 0
    else TotalMessages(errors, ks[..|ks| - 1]) + |MessagesFor(errors, ks[|ks| - 1])|
  }

  // ---------------------------------------------------------------------------
  // Facts about the reference definitions.

  /** A property name is listed exactly when some failure carries it, and the
      list has no repeats. */
  lemma {:induction false} PropertyNamesExact(errors: seq<ValidationFailure>)
    ensures Distinct(PropertyNames(errors))
    ensures forall p :: p in PropertyNames(errors) <==> exists i :: 0 <= i < |errors| && errors[i].propertyName == p
    decreases |errors|
  {
    if |errors| > 0 {
      var init := errors[..|errors| - 1];
      PropertyNamesExact(init);
      forall p ensures p in PropertyNames(errors) <==> exists i :: 0 <= i < |errors| && errors[i].propertyName == p {
        if exists i :: 0 <= i < |init| && init[i].propertyName == p {
          var i :| 0 <= i < |init| && init[i].propertyName == p;
          assert errors[i] == init[i];
        }
        if exists i :: 0 <= i < |errors| && errors[i].propertyName == p {
          var i :| 0 <= i < |errors| && errors[i].propertyName == p;
          if i < |init| {
            assert init[i] == errors[i];
          }
        }
      }
    }
  }

  /** A property no failure carries has no messages. */
  lemma {:induction false} NoMessagesForAbsentProperty(errors: seq<ValidationFailure>, p: string)
    requires p !in PropertyNames(errors)
    ensures MessagesFor(errors, p) == []
    decreases |errors|
  {
    if |errors| > 0 {
      var init := errors[..|errors| - 1];
      var rest := PropertyNames(init);
      assert p !in rest;
      NoMessagesForAbsentProperty(init, p);
    }
  }

  /** Appending one failure adds one message under its own property and
      none under the others. */
  lemma TotalAfterAppend(errors: seq<ValidationFailure>, e: ValidationFailure, ks: seq<string>)
    requires Distinct(ks)
    ensures TotalMessages(errors + [e], ks)
      == TotalMessages(errors, ks) + (if e.propertyName in ks then 1 else 0)
    decreases |ks|
  {
    var errors' := errors + [e];
    assert errors'[..|errors'| - 1] == errors;
    if |ks| > 0 {
      var init := ks[..|ks| - 1];
      assert Distinct(init);
      TotalAfterAppend(errors, e, init);
      assert ks == init + [ks[|ks| - 1]];
      assert e.propertyName in ks <==> e.propertyName in init || e.propertyName == ks[|ks| - 1];
      assert !(e.propertyName in init && e.propertyName == ks[|ks| - 1]);
    }
  }

  /** Adding a key with no messages leaves the total unchanged. */
  lemma TotalWithEmptyKey(errors: seq<ValidationFailure>, ks: seq<string>, p: string)
    requires MessagesFor(errors, p) == []
    ensures TotalMessages(errors, ks + [p]) == TotalMessages(errors, ks)
  {
    assert (ks + [p])[..|ks + [p]| - 1] == ks;
  }

  /** No failure is lost or duplicated: the groups together hold exactly as
      many messages as there were failures. */
  lemma {:induction false} GroupingKeepsEveryMessage(errors: seq<ValidationFailure>)
    ensures TotalMessages(errors, PropertyNames(errors)) == |errors|
    decreases |errors|
  {
    if |errors| > 0 {
      var init := errors[..|errors| - 1];
      var e := errors[|errors| - 1];
      var ks := PropertyNames(init);
      assert errors == init + [e];
      GroupingKeepsEveryMessage(init);
      PropertyNamesExact(init);
      TotalAfterAppend(init, e, ks);
      if e.propertyName !in ks {
        TotalAfterAppend(init, e, ks + [e.propertyName]) by {
          assert Distinct(ks + [e.propertyName]);
        }
        NoMessagesForAbsentProperty(init, e.propertyName);
        TotalWithEmptyKey(init, ks, e.propertyName);
        assert e.propertyName in ks + [e.propertyName];
      }
    }
  }

  // ---------------------------------------------------------------------------
  // The filter.

  /** `GroupBy(PropertyName).ToDictionary(...)`: one pass over the failures,
      opening a group at a property's first failure and appending to it
      afterwards. `keys` is the order in which the groups were opened. */
  method GroupByProperty(errors: seq<ValidationFailure>) returns (keys: seq<string>, groups: map<string, seq<string>>)
    ensures keys == PropertyNames(errors) && Distinct(keys)
    ensures groups.Keys == set p | p in keys
    ensures forall p :: p in groups ==> groups[p] == MessagesFor(errors, p)
    ensures forall p :: p in groups <==> exists i :: 0 <= i < |errors| && errors[i].propertyName == p
    ensures TotalMessages(errors, keys) == |errors|
  {
    keys := [];
    groups := map[];
    for n := 0 to |errors|
      invariant keys == PropertyNames(errors[..n])
      invariant groups.Keys == set p | p in keys
      invariant forall p :: p in groups ==> groups[p] == MessagesFor(errors[..n], p)
    {
      var e := errors[n];
      assert errors[..n + 1][..n] == errors[..n];
      assert errors[..n + 1][n] == e;
      if e.propertyName in groups {
        groups := groups[e.propertyName := groups[e.propertyName] + [e.errorMessage]];
      } else {
        keys := keys + [e.propertyName];
        groups := groups[e.propertyName := [e.errorMessage]];
        NoMessagesForAbsentProperty(errors[..n], e.propertyName);
      }
    }
    assert errors[..|errors|] == errors;
    PropertyNamesExact(errors);
    GroupingKeepsEveryMessage(errors);
  }

  /** Handles a validation exception by grouping its failures into a
      bad-request result and marking the exception handled; any other
      exception passes through with the context untouched. */
  method OnException(context: ExceptionContext) returns (r: ExceptionContext)
    ensures !context.exception.ValidationException? ==> r == context
    ensures context.exception.ValidationException? ==>
      && r.exception == context.exception
      && r.exceptionHandled
      && r.result.Some?
      && r.result.value.statusCode == BadRequestStatus
      && r.result.value.body.kind == ValidationErrorKind
      && r.result.value.body.title == ValidationErrorTitle
      && r.result.value.body.status == BodyStatus
    ensures context.exception.ValidationException? ==>
      var errors := context.exception.errors;
      var groups := r.result.value.body.errors;
      && r.result.value.body.errorKeys == PropertyNames(errors)
      && groups.Keys == set p | p in r.result.value.body.errorKeys
      && (forall p :: p in groups <==> exists i :: 0 <= i < |errors| && errors[i].propertyName == p)
      && (forall p :: p in groups ==> groups[p] == MessagesFor(errors, p))
  {
    if context.exception.ValidationException? {
      var keys, groups := GroupByProperty(context.exception.errors);
      var body := ErrorBody(ValidationErrorKind, ValidationErrorTitle, BodyStatus, keys, groups);
      r := context.(result := Some(BadRequestObjectResult(BadRequestStatus, body)), exceptionHandled := true);
    } else {
      r := context;
    }
  }
}
