/** Request-field validation: `validateField` and the loop over the required
    fields, which reports every falsy field rather than stopping at the first. */
module Validation {
  import opened Wrappers
  import opened JsValues

  /** One entry of a response's `errors` list. */
  datatype ApiError = ApiError(code: string, message: string)

  /** The fields a creation request must carry, in the order they are checked. */
  const RequiredFields: seq<string> := ["name", "department", "ticket_type"]

  const BadRequestCode: string := "BAD_REQUEST"
  const BadRequestPrefix: string := "Please provide a valid "

  /** The error reported for a missing or empty field. */
  function BadRequest(fieldName: string): ApiError {
    ApiError(BadRequestCode, BadRequestPrefix + fieldName)
  }

  /** `req.body || {}`: a falsy body is read as the empty object. */
  function RequestBody(body: JsValue): (r: JsValue)
    ensures !Falsy(r)
    ensures forall key :: Get(r, key) == Get(body, key)
  {
    if Falsy(body) then EmptyObject else body
  }

  /** `validateField`: an error exactly when the field's value is falsy. */
  function ValidateField(field: JsValue, fieldName: string): (r: Option<ApiError>)
    ensures r.Some? <==> Falsy(field)
    ensures r.Some? ==> r.value.code == "BAD_REQUEST"
    ensures r.Some? ==> r.value.message == "Please provide a valid " + fieldName
  {
    if Falsy(field) then Some(BadRequest(fieldName)) else None
  }

  /** Reference definition of the error list: the errors `validateField` gives
      for each of `fields` in turn, the absent ones skipped. */
  function FieldErrors(body: JsValue, fields: seq<string>): (errors: seq<ApiError>)
    ensures |errors| <= |fields|
  {
    if fields == [] then []
    else ValidateField(Get(body, fields[0]), fields[0]).ToSeq() + FieldErrors(body, fields[1..])
  }

  /** The `for … of` loop: push the error of every field that fails. */
  method CollectFieldErrors(body: JsValue, fields: seq<string>) returns (errors: seq<ApiError>)
    ensures errors == FieldErrors(body, fields)
  {
    errors := [];
    for i := 0 to |fields|
      invariant errors == FieldErrors(body, fields[..i])
    {
      var error := ValidateField(Get(body, fields[i]), fields[i]);
      if error.Some? {
        errors := errors + [error.value];
      }
      FieldErrorsSplit(body, fields[..i], [fields[i]]);
      assert fields[..i + 1] == fields[..i] + [fields[i]];
    }
    assert fields[..|fields|] == fields;
  }

  /** Checking a concatenation of field lists reports the first list's errors,
      then the second's: the order of the fields is the order of the errors. */
  lemma {:induction false} FieldErrorsSplit(body: JsValue, xs: seq<string>, ys: seq<string>)
    ensures FieldErrors(body, xs + ys) == FieldErrors(body, xs) + FieldErrors(body, ys)
  {
    if xs == [] {
      assert xs + ys == ys;
    } else {
      assert (xs + ys)[1..] == xs[1..] + ys;
      FieldErrorsSplit(body, xs[1..], ys);
    }
  }

  /** Distinct field names give distinct errors. */
  lemma BadRequestInjective(a: string, b: string)
    ensures BadRequest(a) == BadRequest(b) ==> a == b
  {
    if BadRequest(a) == BadRequest(b) {
      assert a == (BadRequestPrefix + a)[|BadRequestPrefix|..];
      assert b == (BadRequestPrefix + b)[|BadRequestPrefix|..];
    }
  }

  /** The error list holds exactly the errors of the falsy fields: nothing
      else, and none of them is dropped. */
  lemma {:induction false} FieldErrorsExactlyFalsy(body: JsValue, fields: seq<string>, e: ApiError)
    ensures e in FieldErrors(body, fields) <==>
            exists f :: f in fields && Falsy(Get(body, f)) && e == BadRequest(f)
  {
    if fields != [] {
      FieldErrorsExactlyFalsy(body, fields[1..], e);
      assert forall f :: f in fields <==> f == fields[0] || f in fields[1..];
    }
  }

  /** A field name appears in the error list exactly when its value is falsy. */
  lemma FieldReported(body: JsValue, fields: seq<string>, f: string)
    ensures BadRequest(f) in FieldErrors(body, fields) <==> f in fields && Falsy(Get(body, f))
  {
    FieldErrorsExactlyFalsy(body, fields, BadRequest(f));
    if BadRequest(f) in FieldErrors(body, fields) {
      var g :| g in fields && Falsy(Get(body, g)) && BadRequest(f) == BadRequest(g);
      BadRequestInjective(f, g);
    }
  }

  /** Validation passes exactly when every checked field is truthy. */
  lemma {:induction false} FieldErrorsEmpty(body: JsValue, fields: seq<string>)
    ensures FieldErrors(body, fields) == [] <==> forall f :: f in fields ==> !Falsy(Get(body, f))
  {
    if fields != [] {
      FieldErrorsEmpty(body, fields[1..]);
      assert forall f :: f in fields <==> f == fields[0] || f in fields[1..];
    }
  }

  /** The required-field check yields one entry per falsy field among `name`,
      `department` and `ticket_type`, in that order, whatever the earlier
      fields held. */
  lemma RequiredFieldErrorsInOrder(body: JsValue)
    ensures FieldErrors(body, RequiredFields) ==
              (if Falsy(Get(body, "name")) then [BadRequest("name")] else [])
            + (if Falsy(Get(body, "department")) then [BadRequest("department")] else [])
            + (if Falsy(Get(body, "ticket_type")) then [BadRequest("ticket_type")] else [])
  {
    var rest := ["department", "ticket_type"];
    assert RequiredFields[1..] == rest;
    assert rest[1..] == ["ticket_type"];
    assert FieldErrors(body, ["ticket_type"]) ==
           (if Falsy(Get(body, "ticket_type")) then [BadRequest("ticket_type")] else []);
    assert FieldErrors(body, rest) ==
           (if Falsy(Get(body, "department")) then [BadRequest("department")] else [])
           + FieldErrors(body, ["ticket_type"]);
  }

  /** A missing (falsy) body fails all three checks. */
  lemma MissingBodyFailsEveryField(body: JsValue)
    requires Falsy(body)
    ensures FieldErrors(RequestBody(body), RequiredFields) ==
            [BadRequest("name"), BadRequest("department"), BadRequest("ticket_type")]
  {
    RequiredFieldErrorsInOrder(RequestBody(body));
  }
}
