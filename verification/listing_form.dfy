/**
 The create-listing page's form state: the form object (a JavaScript object,
 so a map from key to value), the list of image-URL inputs, and the derived
 `images` field that holds the non-blank URLs. The submit handler's guard
 decides whether the store write happens at all; the write itself is I/O and
 its outcome is a parameter.
 */
module ListingForm {
  import opened Options
  import opened Lists
  import opened Text
  import Uuid

  /** The values the form object holds. */
  datatype FormValue = Str(s: string) | Flag(b: bool) | Urls(urls: seq<string>)

  type Form = map<string, FormValue>

  const InitialForm: Form := map[
    "email" := Str(""), "name" := Str(""), "photoURL" := Str(""), "uuid" := Str(""),
    "approved" := Flag(false), "category" := Str(""), "condition" := Str(""),
    "description" := Str(""), "images" := Urls([]), "ownerId" := Str(""),
    "size" := Str(""), "status" := Str("available")]

  datatype FormState = FormState(form: Form, imageUrls: seq<string>)

  const InitialState: FormState := FormState(InitialForm, [""])

  /** The part of a change event the handler reads: `e.target`'s name, type, value and checked. */
  datatype InputEvent = InputEvent(name: string, inputType: string, value: string, checked: bool)

  /** A fresh form offers a listing as available and not yet approved, with one empty URL input. */
  lemma InitialFormDefaults()
    ensures InitialForm["status"] == Str("available")
    ensures InitialForm["approved"] == Flag(false)
    ensures InitialForm["uuid"] == Str("") && InitialForm["images"] == Urls([])
    ensures ImagesSynced(InitialState)
  {
    assert IsBlank("");
  }

  /** `handleInputChange`: a checkbox writes its `checked` flag, any other input its `value`. */
  function HandleInputChange(st: FormState, e: InputEvent): (r: FormState)
    ensures r.imageUrls == st.imageUrls
    ensures e.name in r.form
    ensures e.inputType == "checkbox" ==> r.form[e.name] == Flag(e.checked)
    ensures e.inputType != "checkbox" ==> r.form[e.name] == Str(e.value)
    ensures r.form.Keys == st.form.Keys + {e.name}
    ensures forall k :: k in st.form && k != e.name ==> r.form[k] == st.form[k]
  {
    st.(form := st.form[e.name := if e.inputType == "checkbox" then Flag(e.checked) else Str(e.value)])
  }

  /** `urls.filter(url => url.trim() !== '')`. */
  function NonBlank(urls: seq<string>): (r: seq<string>)
    ensures forall u :: u in r <==> u in urls && !AllSpace(u)
    ensures IsSubsequence(r, urls)
    ensures |r| == CountWhere(urls, (u: string) => !AllSpace(u))
  {
    forall u ensures IsBlank(u) <==> AllSpace(u) {
      TrimEmptyIffAllSpace(u);
    }
    FilterIsSubsequence(urls, (u: string) => !IsBlank(u));
    FilterSamePredicate(urls, (u: string) => !IsBlank(u), (u: string) => !AllSpace(u));
    FilterLength(urls, (u: string) => !AllSpace(u));
    Filter(urls, (u: string) => !IsBlank(u))
  }

  /** The form's `images` are the non-blank entries of the URL inputs, in order. */
  predicate ImagesSynced(st: FormState)
  {
    "images" in st.form && st.form["images"] == Urls(NonBlank(st.imageUrls))
  }

  /** `handleImageUrlChange(index, value)`. */
  function HandleImageUrlChange(st: FormState, index: nat, value: string): (r: FormState)
    requires index < |st.imageUrls|
    ensures |r.imageUrls| == |st.imageUrls| && r.imageUrls[index] == value
    ensures forall i :: 0 <= i < |st.imageUrls| && i != index ==> r.imageUrls[i] == st.imageUrls[i]
    ensures ImagesSynced(r)
    ensures r.form.Keys == st.form.Keys + {"images"}
    ensures forall k :: k in st.form && k != "images" ==> k in r.form && r.form[k] == st.form[k]
  {
    var urls := st.imageUrls[index := value];
    FormState(st.form["images" := Urls(NonBlank(urls))], urls)
  }

  /** `addImageUrl`: one more, empty, input; the form is untouched. */
  function AddImageUrl(st: FormState): (r: FormState)
    ensures r.imageUrls == st.imageUrls + [""] && r.form == st.form
  {
    st.(imageUrls := st.imageUrls + [""])
  }

  /** Adding an empty input keeps `images` in step, without touching the form. */
  lemma AddKeepsImagesSynced(st: FormState)
    requires ImagesSynced(st)
    ensures ImagesSynced(AddImageUrl(st))
  {
    FilterAppend(st.imageUrls, [""], (u: string) => !IsBlank(u));
    assert IsBlank("");
  }

  /** `imageUrls.filter((_, i) => i !== index)`: keeps every position but `index`. */
  function DropIndex(xs: seq<string>, index: int): (r: seq<string>)
    ensures 0 <= index < |xs| ==> r == xs[..index] + xs[index + 1..]
    ensures !(0 <= index < |xs|) ==> r == xs
    decreases |xs|
  {
    if |xs| == 0 then []
    else (if index == 0 then [] else [xs[0]]) + DropIndex(xs[1..], index - 1)
  }

  /** `removeImageUrl(index)`. */
  function RemoveImageUrl(st: FormState, index: int): (r: FormState)
    ensures 0 <= index < |st.imageUrls| ==> r.imageUrls == st.imageUrls[..index] + st.imageUrls[index + 1..]
    ensures 0 <= index < |st.imageUrls| ==> |r.imageUrls| == |st.imageUrls| - 1
    ensures !(0 <= index < |st.imageUrls|) ==> r.imageUrls == st.imageUrls
    ensures IsSubsequence(r.imageUrls, st.imageUrls)
    ensures ImagesSynced(r)
    ensures r.form.Keys == st.form.Keys + {"images"}
    ensures forall k :: k in st.form && k != "images" ==> k in r.form && r.form[k] == st.form[k]
  {
    var urls := DropIndex(st.imageUrls, index);
    DropIsSubsequence(st.imageUrls, index);
    FormState(st.form["images" := Urls(NonBlank(urls))], urls)
  }

  lemma {:induction false} DropIsSubsequence(xs: seq<string>, index: int)
    ensures IsSubsequence(DropIndex(xs, index), xs)
    decreases |xs|
  {
    if |xs| > 0 {
      DropIsSubsequence(xs[1..], index - 1);
      var r := DropIndex(xs, index);
      if index != 0 {
        assert r[0] == xs[0] && r[1..] == DropIndex(xs[1..], index - 1);
      } else {
        assert r == DropIndex(xs[1..], index - 1);
        if |r| > 0 {
          assert !(r[0] == xs[0] && IsSubsequence(r[1..], xs[1..])) ==> IsSubsequence(r, xs[1..]);
        }
      }
    }
  }

  /** The remove button is only shown with two or more inputs, so at least one input always remains. */
  lemma RemoveButtonKeepsOneInput(st: FormState, index: int)
    requires |st.imageUrls| > 1
    ensures |RemoveImageUrl(st, index).imageUrls| >= 1
  {
  }

  /** Every handler keeps `images` equal to the non-blank URLs (no input is named `images`). */
  lemma HandlersKeepImagesSynced(st: FormState, e: InputEvent, index: nat, value: string, j: int)
    requires ImagesSynced(st) && e.name != "images"
    ensures ImagesSynced(HandleInputChange(st, e))
    ensures index < |st.imageUrls| ==> ImagesSynced(HandleImageUrlChange(st, index, value))
    ensures ImagesSynced(AddImageUrl(st))
    ensures ImagesSynced(RemoveImageUrl(st, j))
  {
    AddKeepsImagesSynced(st);
  }

  /** `generateUUID`'s state update: the new identifier is stored under `uuid`. */
  method GenerateUuidInto(st: FormState, rs: seq<Uuid.Nibble>) returns (r: FormState)
    requires |rs| == Uuid.SlotCount
    ensures "uuid" in r.form && r.form["uuid"].Str? && Uuid.IsV4(r.form["uuid"].s)
    ensures r.form["uuid"] == Str(Uuid.UuidFrom(rs))
    ensures r.imageUrls == st.imageUrls
    ensures r.form.Keys == st.form.Keys + {"uuid"}
    ensures forall k :: k in st.form && k != "uuid" ==> k in r.form && r.form[k] == st.form[k]
  {
    var id := Uuid.GenerateUuid(rs);
    r := st.(form := st.form["uuid" := Str(id)]);
  }

  // ---------------------------------------------------------------------------
  // Submit

  /**
   JavaScript truthiness of a form value, the rule `Wallet.Truthy` applies to
   optional strings: a missing key reads as `undefined`, an empty string and
   `false` are falsy, and an array is always truthy.
   */
  predicate Truthy(v: Option<FormValue>)
  {
    match v
    case None => false
    case Some(Str(s)) => s != ""
    case Some(Flag(b)) => b
    case Some(Urls(_)) => true
  }

  function Lookup(form: Form, key: string): Option<FormValue>
  {
    if key in form then Some(form[key]) else None
  }

  const UuidRequired: string := "UUID is required."
  const CreatedMessage: string := "Item created successfully!"
  const FailedMessage: string := "Failed to create item."

  /** The document write `handleSubmit` performs: collection path and document. */
  datatype Write = Write(path: seq<string>, doc: Form)

  /** The alert shown and the write attempted, if any. */
  datatype SubmitOutcome = SubmitOutcome(alert: string, write: Option<Write>)

  /**
   `handleSubmit`; `writeFails` is whether the store rejects the write. A
   truthy identifier that is not a string cannot name a collection path, so the
   store call fails before writing.
   */
  function HandleSubmit(form: Form, writeFails: bool): (r: SubmitOutcome)
    ensures !Truthy(Lookup(form, "uuid")) ==> r == SubmitOutcome(UuidRequired, None)
    ensures r.write.Some? <==> Truthy(Lookup(form, "uuid")) && form["uuid"].Str?
    ensures r.write.Some? ==> r.write.value == Write(["users", form["uuid"].s, "items"], form)
    ensures r.write.Some? ==> (r.alert == CreatedMessage <==> !writeFails)
    ensures r.alert == CreatedMessage ==> r.write.Some?
    ensures r.write.Some? ==> r.alert == (if writeFails then FailedMessage else CreatedMessage)
    ensures Truthy(Lookup(form, "uuid")) && !form["uuid"].Str? ==> r == SubmitOutcome(FailedMessage, None)
  {
    if !Truthy(Lookup(form, "uuid")) then SubmitOutcome(UuidRequired, None)
    else match form["uuid"]
      case Str(id) =>
        SubmitOutcome(if writeFails then FailedMessage else CreatedMessage, Some(Write(["users", id, "items"], form)))
      case _ => SubmitOutcome(FailedMessage, None)
  }

  /** The untouched form is refused; after generating an identifier the same form goes through to the write. */
  lemma UuidGuard(rs: seq<Uuid.Nibble>, writeFails: bool)
    requires |rs| == Uuid.SlotCount
    ensures HandleSubmit(InitialForm, writeFails).write.None?
    ensures var f := InitialForm["uuid" := Str(Uuid.UuidFrom(rs))];
      HandleSubmit(f, writeFails).write.Some? && HandleSubmit(f, writeFails).write.value.path[1] == Uuid.UuidFrom(rs)
  {
  }
}
