/** The food collection as the create, update, delete and photo handlers see
    it: an in-memory map from id to record that the handlers change in place. */
module Store {
  import opened Results
  import opened FoodModel
  import opened Validation

  /** Why a write handler answered with an error instead of a record. */
  datatype FoodError =
    | Invalid(check: ValidationError)  // a field check failed; nothing was written
    | NotFound                         // no record has the requested id

  /** The reply of the photo handler. */
  datatype PhotoReply =
    | SendPhoto(photo: Photo)  // the stored bytes, sent with their content type
    | NoReply                  // the record has no photo: the handler never answers
    | LookupFailed             // no record with that id: the handler fails with an error

  /** The submitted fields that a stored record carries verbatim (price and
      quantity after the schema's conversion to numbers). */
  ghost predicate Carries(food: Food, form: FoodForm, toNumber: string -> int)
  {
    && form.name.Some? && food.name == form.name.value
    && form.description.Some? && food.description == form.description.value
    && form.price.Some? && food.price == toNumber(form.price.value)
    && form.category.Some? && food.category == form.category.value
    && form.quantity.Some? && food.quantity == toNumber(form.quantity.value)
  }

  class FoodStore {
    /** The slug library, deterministic and otherwise unknown. */
    const slugify: string -> string
    /** The schema's cast of a numeric form field. */
    const toNumber: string -> int
    /** Every stored record, by id. */
    var foods: map<Id, Food>
    /** The next id the store hands out; all stored ids are below it. */
    var nextId: Id

    ghost predicate Valid()
      reads this
    {
      forall id :: id in foods ==> id < nextId && foods[id].id == id
    }

    constructor (slugify: string -> string, toNumber: string -> int)
      ensures Valid()
      ensures this.slugify == slugify && this.toNumber == toNumber
      ensures foods == map[]
    {
      this.slugify := slugify;
      this.toNumber := toNumber;
      foods := map[];
      nextId := 0;
    }

    /** Create a record from a validated form: the fields as submitted plus a
        slug of the name, then the photo (when one was uploaded) written into
        the new record before it is saved. `now` is the save time. */
    method Create(form: FoodForm, photo: Option<Upload>, now: int) returns (r: Result<Food, FoodError>)
      requires Valid()
      modifies this
      ensures Valid()
      ensures Validate(form, photo).Some? ==>
                r == Failure(Invalid(Validate(form, photo).value))
                && foods == old(foods) && nextId == old(nextId)
      ensures Validate(form, photo).None? ==>
                && r.Success?
                && r.value.id !in old(foods)
                && foods == old(foods)[r.value.id := r.value]
                && nextId == old(nextId) + 1
                && Carries(r.value, form, toNumber)
                && r.value.slug == slugify(r.value.name)
                && r.value.shipping == form.shipping
                && r.value.photo == (if photo.Some? then Some(StoredPhoto(photo.value)) else None)
                && r.value.createdAt == now
    {
      var failure := Validate(form, photo);
      if failure.Some? {
        return Failure(Invalid(failure.value));
      }
      var name := form.name.value;
      var food := Food(nextId, name, slugify(name), form.description.value,
                       toNumber(form.price.value), form.category.value,
                       toNumber(form.quantity.value), form.shipping, None, now);
      if photo.Some? {
        food := food.(photo := Some(StoredPhoto(photo.value)));
      }
      foods := foods[food.id := food];
      nextId := nextId + 1;
      return Success(food);
    }

    /** Update the record `pid`: the submitted fields and a fresh slug replace
        the stored ones (an absent `shipping` keeps its old value), then an
        uploaded photo overwrites the stored one and the record is saved again.
        Nothing but the record `pid` changes. */
    method Update(pid: Id, form: FoodForm, photo: Option<Upload>) returns (r: Result<Food, FoodError>)
      requires Valid()
      modifies this
      ensures Valid()
      ensures nextId == old(nextId)
      ensures Validate(form, photo).Some? ==>
                r == Failure(Invalid(Validate(form, photo).value)) && foods == old(foods)
      ensures Validate(form, photo).None? && pid !in old(foods) ==>
                r == Failure(NotFound) && foods == old(foods)
      ensures Validate(form, photo).None? && pid in old(foods) ==>
                && r.Success?
                && foods == old(foods)[pid := r.value]
                && r.value.id == pid
                && Carries(r.value, form, toNumber)
                && r.value.slug == slugify(r.value.name)
                && r.value.shipping == (if form.shipping.Some? then form.shipping else old(foods)[pid].shipping)
                && r.value.photo == (if photo.Some? then Some(StoredPhoto(photo.value)) else old(foods)[pid].photo)
                && r.value.createdAt == old(foods)[pid].createdAt
    {
      var failure := Validate(form, photo);
      if failure.Some? {
        return Failure(Invalid(failure.value));
      }
      if pid !in foods {
        return Failure(NotFound);
      }
      var name := form.name.value;
      var food := foods[pid];
      food := food.(name := name, slug := slugify(name), description := form.description.value,
                    price := toNumber(form.price.value), category := form.category.value,
                    quantity := toNumber(form.quantity.value));
      if form.shipping.Some? {
        food := food.(shipping := form.shipping);
      }
      foods := foods[pid := food];
      if photo.Some? {
        food := food.(photo := Some(StoredPhoto(photo.value)));
      }
      foods := foods[pid := food];
      return Success(food);
    }

    /** Delete the record `pid`; deleting a missing id succeeds and changes
        nothing. Every other record is kept as it was. */
    method Delete(pid: Id)
      requires Valid()
      modifies this
      ensures Valid()
      ensures foods == old(foods) - {pid} && nextId == old(nextId)
      ensures pid !in foods
      ensures forall id :: id in old(foods) && id != pid ==> id in foods && foods[id] == old(foods)[id]
    {
      foods := foods - {pid};
    }

    /** The photo handler: the stored photo if there is one; no answer at all
        if the record has none; an error if the id is unknown. */
    function PhotoOf(pid: Id): (r: PhotoReply)
      reads this
      ensures r.LookupFailed? <==> pid !in foods
      ensures r.NoReply? <==> pid in foods && foods[pid].photo.None?
      ensures r.SendPhoto? ==> pid in foods && foods[pid].photo == Some(r.photo)
    {
      if pid !in foods then LookupFailed
      else if foods[pid].photo.Some? then SendPhoto(foods[pid].photo.value)
      else NoReply
    }
  }
}
