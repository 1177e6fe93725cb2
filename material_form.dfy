/** The material form: the check on a chosen image, the validation, and the record it submits,
    together with the record the materials page reads from it. */
module MaterialForm {
  import opened Base
  import opened Ledger

  // ---------------------------------------------------------------------
  // The image selection
  // ---------------------------------------------------------------------

  /** A file the user picked: its size in bytes and its MIME type. */
  datatype ImageFile = ImageFile(name: string, size: nat, mimeType: string)

  datatype ImageError = ImageSizeTooLarge | InvalidImageType

  const MaxImageBytes: nat := 5 * 1024 * 1024

  const AllowedImageTypes: seq<string> := ["image/jpeg", "image/png", "image/webp", "image/gif"]

  /** Why a file is refused, if it is: too large first, then not one of the four image types. */
  function ImageCheck(file: ImageFile): (r: Option<ImageError>)
    ensures r.None? <==> file.size <= MaxImageBytes && file.mimeType in AllowedImageTypes
    ensures r == Some(ImageSizeTooLarge) <==> file.size > MaxImageBytes
  {
    if file.size > MaxImageBytes then Some(ImageSizeTooLarge)
    else if file.mimeType !in AllowedImageTypes then Some(InvalidImageType)
    else None
  }

  /** The image part of the form's state. */
  class ImageState {
    var imageFile: Option<ImageFile>
    var preview: Option<string>
    var imageError: Option<ImageError>
    var existingImageUrl: Option<string>

    constructor (existingImageUrl: Option<string>)
      ensures this.existingImageUrl == existingImageUrl && preview == existingImageUrl
      ensures imageFile.None? && imageError.None?
    {
      this.existingImageUrl := existingImageUrl;
      preview := existingImageUrl;
      imageFile := None;
      imageError := None;
    }

    /** handleImageChange: a refused file clears the selection and brings back the stored
        image's preview; an accepted one is kept and previewed from `objectUrl`. Choosing
        nothing changes nothing. */
    method SelectImage(file: Option<ImageFile>, objectUrl: string)
      modifies this
      ensures existingImageUrl == old(existingImageUrl)
      ensures file.None? ==>
                imageFile == old(imageFile) && preview == old(preview) && imageError == old(imageError)
      ensures file.Some? ==> imageError == ImageCheck(file.value)
      ensures file.Some? && imageError.Some? ==> imageFile.None? && preview == existingImageUrl
      ensures file.Some? && imageError.None? ==> imageFile == file && preview == Some(objectUrl)
    {
      if file.None? {
        return;
      }
      var f := file.value;
      if f.size > MaxImageBytes {
        imageError := Some(ImageSizeTooLarge);
        imageFile := None;
        preview := existingImageUrl;
        return;
      }
      if f.mimeType !in AllowedImageTypes {
        imageError := Some(InvalidImageType);
        imageFile := None;
        preview := existingImageUrl;
        return;
      }
      imageError := None;
      imageFile := Some(f);
      preview := Some(objectUrl);
    }
  }

  // ---------------------------------------------------------------------
  // Validation
  // ---------------------------------------------------------------------

  /** The form's fields. The quantity is read with parseInt: a fraction is cut to its integer
      part before it reaches the form. When a material is edited it holds the stored total. */
  datatype MaterialFields = MaterialFields(
    name: string, pricePerUnit: NumField, currency: string, quantity: NumField, unitType: string)

  datatype Field = NameField | PriceField | CurrencyField | QuantityField | UnitTypeField

  datatype ErrorKey = RequiredField | InvalidAmount | InvalidQuantity

  /** The conditions a material must meet: a name, a price of zero or more, a currency, a
      quantity of zero or more and a unit. */
  predicate Acceptable(f: MaterialFields) {
    && !IsBlank(f.name)
    && f.pricePerUnit.Number? && f.pricePerUnit.value >= 0
    && f.currency != ""
    && f.quantity.Number? && f.quantity.value >= 0
    && !IsBlank(f.unitType)
  }

  /** Which of the name, currency and unit fields carry an error; each says it is required. */
  predicate TextFieldsMatch(errors: map<Field, ErrorKey>, f: MaterialFields) {
    && (NameField in errors <==> IsBlank(f.name))
    && (NameField in errors ==> errors[NameField] == RequiredField)
    && (CurrencyField in errors <==> f.currency == "")
    && (CurrencyField in errors ==> errors[CurrencyField] == RequiredField)
    && (UnitTypeField in errors <==> IsBlank(f.unitType))
    && (UnitTypeField in errors ==> errors[UnitTypeField] == RequiredField)
  }

  /** Which of the price and quantity fields carry an error, and which message. */
  predicate NumberFieldsMatch(errors: map<Field, ErrorKey>, f: MaterialFields) {
    && (PriceField in errors <==> !(f.pricePerUnit.Number? && f.pricePerUnit.value >= 0))
    && (PriceField in errors ==> errors[PriceField] == InvalidAmount)
    && (QuantityField in errors <==> !(f.quantity.Number? && f.quantity.value >= 0))
    && (QuantityField in errors ==> errors[QuantityField] == InvalidQuantity)
  }

  /** validate: one rule per field, in source order; the material passes exactly when it is
      Acceptable. */
  method Validate(f: MaterialFields) returns (errors: map<Field, ErrorKey>, ok: bool)
    ensures TextFieldsMatch(errors, f) && NumberFieldsMatch(errors, f)
    ensures ok <==> errors == map[]
    ensures ok <==> Acceptable(f)
  {
    errors := map[];
    if IsBlank(f.name) {
      errors := errors[NameField := RequiredField];
    }
    if f.pricePerUnit.Blank? || f.pricePerUnit.NotNumber? || f.pricePerUnit.value < 0 {
      errors := errors[PriceField := InvalidAmount];
    }
    if f.currency == "" {
      errors := errors[CurrencyField := RequiredField];
    }
    if f.quantity.Blank? || f.quantity.NotNumber? || f.quantity.value < 0 {
      errors := errors[QuantityField := InvalidQuantity];
    }
    if IsBlank(f.unitType) {
      errors := errors[UnitTypeField := RequiredField];
    }
    ok := errors == map[];
    NoErrorsIffAcceptable(errors, f);
  }

  /** An error map that matches the rules is empty exactly when the material is Acceptable. */
  lemma NoErrorsIffAcceptable(errors: map<Field, ErrorKey>, f: MaterialFields)
    requires TextFieldsMatch(errors, f) && NumberFieldsMatch(errors, f)
    ensures errors == map[] <==> Acceptable(f)
  {
    if errors != map[] {
      var k :| k in errors;
      match k
      case NameField =>
      case PriceField =>
      case CurrencyField =>
      case QuantityField =>
      case UnitTypeField =>
    }
  }

  // ---------------------------------------------------------------------
  // The submitted record
  // ---------------------------------------------------------------------

  /** What handleSubmit hands to the page: the form's quantity under the key `quantity`. */
  datatype FormPayload = FormPayload(
    name: string, pricePerUnit: int, currency: string, quantity: int, unitType: string,
    imageUrl: Option<string>, id: Option<Id>)

  predicate Submittable(f: MaterialFields) {
    f.pricePerUnit.Number? && f.quantity.Number?
  }

  /** handleSubmit's record: trimmed name and unit, the parsed numbers, the image address left
      by the upload step, and the id only when an existing material is edited. */
  function Payload(f: MaterialFields, initial: Option<Material>, imageUrl: Option<string>): (r: FormPayload)
    requires Submittable(f)
    ensures r.name == Trim(f.name) && r.unitType == Trim(f.unitType)
    ensures r.pricePerUnit == f.pricePerUnit.value && r.quantity == f.quantity.value
    ensures r.currency == f.currency && r.imageUrl == imageUrl
    ensures r.id.Some? <==> initial.Some? && initial.value.id != ""
    ensures r.id.Some? ==> r.id.value == initial.value.id
  {
    FormPayload(Trim(f.name), f.pricePerUnit.value, f.currency, f.quantity.value, Trim(f.unitType),
                imageUrl, if initial.Some? && initial.value.id != "" then Some(initial.value.id) else None)
  }

  /** The record the materials page reads: the quantity in stock before the save and the
      quantity to add, each absent when the record does not carry it. */
  datatype MaterialPayload = MaterialPayload(
    id: Option<Id>, name: string, pricePerUnit: int, currency: string, unitType: string,
    imageUrl: Option<string>, currentQuantity: Option<int>, quantityToAdd: Option<int>)

  /** The form's record as the page reads it: neither `current_quantity` nor `quantity_to_add`
      is present, whatever the form's quantity was. */
  function AsPageReadsIt(p: FormPayload): (r: MaterialPayload)
    ensures r.currentQuantity.None? && r.quantityToAdd.None?
    ensures r.id == p.id && r.name == p.name && r.pricePerUnit == p.pricePerUnit
  {
    MaterialPayload(p.id, p.name, p.pricePerUnit, p.currency, p.unitType, p.imageUrl, None, None)
  }

  /** The record the page expects: a new material brings its quantity as the quantity to add;
      an edited one brings the form's total as the current quantity and adds nothing. */
  function PageInterface(p: FormPayload): (r: MaterialPayload)
    ensures r.id == p.id && r.name == p.name && r.pricePerUnit == p.pricePerUnit
    ensures r.currency == p.currency && r.unitType == p.unitType && r.imageUrl == p.imageUrl
    ensures p.id.None? ==> r.quantityToAdd == Some(p.quantity) && r.currentQuantity.None?
    ensures p.id.Some? ==> r.currentQuantity == Some(p.quantity) && r.quantityToAdd.None?
  {
    if p.id.None? then
      MaterialPayload(p.id, p.name, p.pricePerUnit, p.currency, p.unitType, p.imageUrl, None, Some(p.quantity))
    else
      MaterialPayload(p.id, p.name, p.pricePerUnit, p.currency, p.unitType, p.imageUrl, Some(p.quantity), None)
  }
}
