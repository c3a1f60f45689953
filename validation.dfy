/** The field checks that create and update run before anything is written:
    a fixed, ordered chain in which the first failing check decides the reply. */
module Validation {
  import opened Results
  import opened FoodModel

  /** One error per check; the handler replies with exactly one of them. */
  datatype ValidationError =
    | NameRequired
    | DescriptionRequired
    | PriceRequired
    | CategoryRequired
    | QuantityRequired
    | PhotoTooLarge

  /** Largest accepted photo, in bytes (inclusive). */
  const MaxPhotoSize: nat := 1000000

  /** The field a required-field check is about, as its error text names it. */
  function FieldLabel(e: ValidationError): string
  {
    match e
    case NameRequired => "Name"
    case DescriptionRequired => "Description"
    case PriceRequired => "Price"
    case CategoryRequired => "Category"
    case QuantityRequired => "Quantity"
    case PhotoTooLarge => "photo"
  }

  /** The error text the handler sends for each check: "<Field> is Required"
      for a missing field, and a text about the photo size otherwise. */
  function Message(e: ValidationError): (m: string)
    ensures FieldLabel(e) <= m
  {
    FieldLabel(e) + if e == PhotoTooLarge then " is Required and should be less then 1mb" else " is Required"
  }

  /** Different checks send different texts, so the reply identifies the check. */
  lemma MessagesDistinct(e1: ValidationError, e2: ValidationError)
    ensures e1 != e2 ==> Message(e1) != Message(e2)
  {
    if e1 != e2 {
      assert Message(e1)[0] == FieldLabel(e1)[0];
      assert Message(e2)[0] == FieldLabel(e2)[0];
    }
  }

  /** JavaScript truthiness of a form field: absent and "" are falsy; every
      other string (including "0") is truthy. */
  predicate Truthy(f: Option<string>)
  {
    f.Some? && f.value != ""
  }

  /** `photo && photo.size > 1000000`: only a present, oversized photo fails. */
  predicate PhotoTooBig(photo: Option<Upload>)
  {
    photo.Some? && photo.value.size > MaxPhotoSize
  }

  /** Whether the named check rejects the request. */
  predicate Fails(check: ValidationError, form: FoodForm, photo: Option<Upload>)
  {
    match check
    case NameRequired => !Truthy(form.name)
    case DescriptionRequired => !Truthy(form.description)
    case PriceRequired => !Truthy(form.price)
    case CategoryRequired => !Truthy(form.category)
    case QuantityRequired => !Truthy(form.quantity)
    case PhotoTooLarge => PhotoTooBig(photo)
  }

  /** The order in which the checks run. */
  const CheckOrder: seq<ValidationError> :=
    [NameRequired, DescriptionRequired, PriceRequired, CategoryRequired, QuantityRequired, PhotoTooLarge]

  /** Position of a check in CheckOrder. */
  function Rank(e: ValidationError): (i: nat)
    ensures i < |CheckOrder| && CheckOrder[i] == e
  {
    match e
    case NameRequired => 0
    case DescriptionRequired => 1
    case PriceRequired => 2
    case CategoryRequired => 3
    case QuantityRequired => 4
    case PhotoTooLarge => 5
  }

  /** Reference definition: run a list of named checks and return the first
      one that fails, if any. */
  function FirstFailure(checks: seq<ValidationError>, form: FoodForm, photo: Option<Upload>): Option<ValidationError>
  {
    if checks == [] then None
    else if Fails(checks[0], form, photo) then Some(checks[0])
    else FirstFailure(checks[1..], form, photo)
  }

  /** The `switch (true)` of the create and update handlers: the first case
      whose condition holds returns its error; if none holds, the request is
      accepted (None). */
  function Validate(form: FoodForm, photo: Option<Upload>): (r: Option<ValidationError>)
    ensures r.Some? ==> Fails(r.value, form, photo)
    ensures r.None? ==> Truthy(form.name) && Truthy(form.description) && Truthy(form.price)
                        && Truthy(form.category) && Truthy(form.quantity) && !PhotoTooBig(photo)
  {
    if !Truthy(form.name) then Some(NameRequired)
    else if !Truthy(form.description) then Some(DescriptionRequired)
    else if !Truthy(form.price) then Some(PriceRequired)
    else if !Truthy(form.category) then Some(CategoryRequired)
    else if !Truthy(form.quantity) then Some(QuantityRequired)
    else if PhotoTooBig(photo) then Some(PhotoTooLarge)
    else None
  }

  /** FirstFailure returns a failing check that no earlier check precedes. */
  lemma {:induction false} FirstFailureIsFirst(checks: seq<ValidationError>, form: FoodForm, photo: Option<Upload>)
    ensures FirstFailure(checks, form, photo).None? <==>
              forall i :: 0 <= i < |checks| ==> !Fails(checks[i], form, photo)
    ensures FirstFailure(checks, form, photo).Some? ==>
              exists k :: 0 <= k < |checks| && checks[k] == FirstFailure(checks, form, photo).value
                          && Fails(checks[k], form, photo)
                          && forall i :: 0 <= i < k ==> !Fails(checks[i], form, photo)
  {
    if checks != [] && !Fails(checks[0], form, photo) {
      FirstFailureIsFirst(checks[1..], form, photo);
      if FirstFailure(checks, form, photo).Some? {
        var k :| 0 <= k < |checks[1..]| && checks[1..][k] == FirstFailure(checks, form, photo).value
                 && Fails(checks[1..][k], form, photo)
                 && forall i :: 0 <= i < k ==> !Fails(checks[1..][i], form, photo);
        assert checks[k + 1] == checks[1..][k];
        forall i | 0 <= i < k + 1
          ensures !Fails(checks[i], form, photo)
        {
          if i > 0 { assert checks[i] == checks[1..][i - 1]; }
        }
      } else {
        forall i | 0 <= i < |checks|
          ensures !Fails(checks[i], form, photo)
        {
          if i > 0 { assert checks[i] == checks[1..][i - 1]; }
        }
      }
    }
  }

  /** The handlers' chain is the ordered list of named checks. */
  lemma ValidateIsFirstFailure(form: FoodForm, photo: Option<Upload>)
    ensures Validate(form, photo) == FirstFailure(CheckOrder, form, photo)
  {
    var c0 := CheckOrder;
    var c1, c2, c3, c4, c5 := c0[1..], c0[2..], c0[3..], c0[4..], c0[5..];
    assert c1 == c0[1..] && c2 == c1[1..] && c3 == c2[1..] && c4 == c3[1..] && c5 == c4[1..];
    assert c5[1..] == [];
    assert FirstFailure(c5, form, photo) == if PhotoTooBig(photo) then Some(PhotoTooLarge) else None;
    assert FirstFailure(c4, form, photo) == if !Truthy(form.quantity) then Some(QuantityRequired) else FirstFailure(c5, form, photo);
    assert FirstFailure(c3, form, photo) == if !Truthy(form.category) then Some(CategoryRequired) else FirstFailure(c4, form, photo);
    assert FirstFailure(c2, form, photo) == if !Truthy(form.price) then Some(PriceRequired) else FirstFailure(c3, form, photo);
    assert FirstFailure(c1, form, photo) == if !Truthy(form.description) then Some(DescriptionRequired) else FirstFailure(c2, form, photo);
  }

  /** Exactly one error is reported, and it is the first failing check in the
      order name, description, price, category, quantity, photo size. */
  lemma ValidateReportsFirstFailing(form: FoodForm, photo: Option<Upload>, e: ValidationError)
    ensures Validate(form, photo) == Some(e) <==>
              Fails(e, form, photo) && forall i :: 0 <= i < Rank(e) ==> !Fails(CheckOrder[i], form, photo)
  {
    ValidateIsFirstFailure(form, photo);
    FirstFailureIsFirst(CheckOrder, form, photo);
    var r := Validate(form, photo);
    if r.Some? {
      var k :| 0 <= k < |CheckOrder| && CheckOrder[k] == r.value && Fails(CheckOrder[k], form, photo)
               && forall i :: 0 <= i < k ==> !Fails(CheckOrder[i], form, photo);
      assert k == Rank(r.value);
      if Fails(e, form, photo) && Rank(e) != k {
        assert Rank(e) > k ==> !(forall i :: 0 <= i < Rank(e) ==> !Fails(CheckOrder[i], form, photo));
      }
    } else {
      assert !Fails(CheckOrder[Rank(e)], form, photo);
    }
  }

  /** A request is accepted exactly when no check fails. */
  lemma ValidatePassesIff(form: FoodForm, photo: Option<Upload>)
    ensures Validate(form, photo).None? <==> forall e: ValidationError :: !Fails(e, form, photo)
  {
  }

  /** The size limit is inclusive and only applies to a present photo: with
      every field filled in, a missing photo passes and a photo passes exactly
      when it is at most 1,000,000 bytes. */
  lemma PhotoBoundary(form: FoodForm, u: Upload)
    requires Truthy(form.name) && Truthy(form.description) && Truthy(form.price)
    requires Truthy(form.category) && Truthy(form.quantity)
    ensures Validate(form, None) == None
    ensures Validate(form, Some(u)) == None <==> u.size <= 1000000
    ensures Validate(form, Some(u)) != None ==> Message(Validate(form, Some(u)).value) == "photo is Required and should be less then 1mb"
  {
  }
}
