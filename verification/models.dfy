/** The persistent records of the inventory system (users, profiles, asset
    types, assets and ownership history), the field constraints that Django's
    `full_clean` enforces on them, and the derived asset-type code. */
module Models {
  import opened Wrappers
  import opened Seqs

  type UserId = int
  type AssetId = int
  type AssetTypeId = int

  /** A calendar date as a day number, day 0 being 1970-01-01. */
  type Day = int

  /** A point in time (a `DateTimeField` value) in seconds since
      1970-01-01 00:00. */
  type Instant = int

  const SecondsPerDay := 86400

  /** The calendar date of an instant (`datetime.date()`): the day it falls
      in, rounding down also before 1970. */
  function DayOf(i: Instant): (d: Day)
    ensures d * SecondsPerDay <= i < (d + 1) * SecondsPerDay
  {
    i / SecondsPerDay
  }

  /** 2999-01-01 00:00, the default end of an ownership record. */
  const FarFuture: Instant := 375835 * SecondsPerDay

  datatype User = User(id: UserId, email: string, isStaff: bool, isSuperuser: bool, isActive: bool)

  // ---------------------------------------------------------------------------
  // Field validation as `Model.full_clean` performs it
  // ---------------------------------------------------------------------------

  datatype FieldError = NullValue | BlankValue | TooShort | TooLong | Negative | TooLarge

  /** The largest value of a PostgreSQL `integer` column; Django's range
      validator on a `PositiveIntegerField` refuses anything above it. */
  const MaxQuantity := 2147483647

  /** The declaration of a text column: `MinLengthValidator(minLength)`,
      `max_length` (absent for a `TextField`), `null=` and `blank=`. */
  datatype CharSpec = CharSpec(minLength: nat, maxLength: Option<nat>, nullable: bool, blank: bool)

  /** Django's "empty values" for a text column: `None` or `""`. */
  predicate IsEmpty(v: Option<string>) {
    v == None || v == Some("")
  }

  /** The errors `clean_fields` reports for one text column: an empty value is
      skipped when the column is `blank=True`; otherwise `None` on a non-null
      column and an empty value on a non-blank column raise before any
      validator runs; a non-empty value goes through the length validators. */
  function CleanChar(spec: CharSpec, v: Option<string>): (errs: seq<FieldError>)
    ensures errs == [] <==>
              (spec.blank && IsEmpty(v))
              || (v.Some? && v.value != "" && spec.minLength <= |v.value|
                  && (spec.maxLength.Some? ==> |v.value| <= spec.maxLength.value))
    ensures (spec.minLength > 0 && v.Some? && |v.value| < spec.minLength && !(spec.blank && IsEmpty(v)))
              ==> (TooShort in errs || BlankValue in errs)
  {
    if spec.blank && IsEmpty(v) then []
    else if v.None? && !spec.nullable then [NullValue]
    else if IsEmpty(v) then [BlankValue]
    else
      var s := v.value;
      (if |s| < spec.minLength then [TooShort] else [])
      + (if spec.maxLength.Some? && |s| > spec.maxLength.value then [TooLong] else [])
  }

  /** A `PositiveIntegerField`: the value must lie in 0..2147483647, the
      range of the database column. */
  function CleanCount(n: int): (errs: seq<FieldError>)
    ensures errs == [] <==> 0 <= n <= MaxQuantity
    ensures n < 0 ==> Negative in errs
    ensures n > MaxQuantity ==> TooLarge in errs
  {
    if n < 0 then [Negative] else if n > MaxQuantity then [TooLarge] else []
  }

  // ---------------------------------------------------------------------------
  // Asset types and their derived code
  // ---------------------------------------------------------------------------

  datatype AssetType = AssetType(id: AssetTypeId, kind: string, subType: string, group: string, description: Option<string>)

  datatype AssetTypeField = KindField | SubTypeField | GroupField

  const TypeTextSpec := CharSpec(1, Some(225), false, false)

  /** What `full_clean` reports for an asset type (`description` is an
      unconstrained optional text). */
  function AssetTypeErrors(t: AssetType): (errs: seq<(AssetTypeField, FieldError)>)
    ensures errs == [] <==>
              1 <= |t.kind| <= 225 && 1 <= |t.subType| <= 225 && 1 <= |t.group| <= 225
  {
    Map(e => (KindField, e), CleanChar(TypeTextSpec, Some(t.kind)))
    + Map(e => (SubTypeField, e), CleanChar(TypeTextSpec, Some(t.subType)))
    + Map(e => (GroupField, e), CleanChar(TypeTextSpec, Some(t.group)))
  }

  /** The short code embedded in a field: the text after its last "(" with the
      final character (the closing ")") dropped. */
  function ExtractCode(text: string): string {
    DropLast(LastSegment(text, '('))
  }

  /** The derived, never stored, asset-type code "TYPE-SUBTYPE-GROUP". */
  function Code(t: AssetType): string {
    ExtractCode(t.kind) + "-" + ExtractCode(t.subType) + "-" + ExtractCode(t.group)
  }

  /** Embedding a code as "title(CODE)" and extracting it gives the code back. */
  lemma ExtractEmbedded(title: string, code: string)
    requires '(' !in code
    ensures ExtractCode(title + "(" + code + ")") == code
  {
    assert title + "(" + code + ")" == title + ['('] + (code + ")");
    LastSegmentAfter(title, '(', code + ")");
    assert (code + ")")[..|code|] == code;
  }

  /** A field without "(" yields the whole field minus its last character. */
  lemma ExtractWithoutParenthesis(text: string)
    requires '(' !in text
    ensures ExtractCode(text) == DropLast(text)
  {
  }

  /** The code of an asset type whose three fields are "title(CODE)" texts. */
  lemma CodeOfEmbedded(t: AssetType, l1: string, c1: string, l2: string, c2: string, l3: string, c3: string)
    requires '(' !in c1 && '(' !in c2 && '(' !in c3
    requires t.kind == l1 + "(" + c1 + ")"
    requires t.subType == l2 + "(" + c2 + ")"
    requires t.group == l3 + "(" + c3 + ")"
    ensures Code(t) == c1 + "-" + c2 + "-" + c3
  {
    ExtractEmbedded(l1, c1);
    ExtractEmbedded(l2, c2);
    ExtractEmbedded(l3, c3);
  }

  /** The worked example of the model tests; the description plays no part. */
  lemma {:induction false} CodeExample(t: AssetType)
    requires t.kind == "Test Asset Type(HDW)"
    requires t.subType == "Test Asset Sub Type(CABLE)"
    requires t.group == "Test Asset Group(ETH)"
    ensures Code(t) == "HDW-CABLE-ETH"
  {
    ExampleKind(t.kind);
    ExampleSubType(t.subType);
    ExampleGroup(t.group);
    ExampleJoin();
  }

  lemma ExampleJoin()
    ensures "HDW" + "-" + "CABLE" + "-" + "ETH" == "HDW-CABLE-ETH"
  {
    assert "HDW" + "-" == "HDW-";
    assert "HDW-" + "CABLE" == "HDW-CABLE";
    assert "HDW-CABLE" + "-" == "HDW-CABLE-";
  }

  lemma ExampleKind(s: string)
    requires s == "Test Asset Type(HDW)"
    ensures ExtractCode(s) == "HDW"
  {
    ExtractEmbedded("Test Asset Type", "HDW");
  }

  lemma ExampleSubType(s: string)
    requires s == "Test Asset Sub Type(CABLE)"
    ensures ExtractCode(s) == "CABLE"
  {
    ExtractEmbedded("Test Asset Sub Type", "CABLE");
  }

  lemma ExampleGroup(s: string)
    requires s == "Test Asset Group(ETH)"
    ensures ExtractCode(s) == "ETH"
  {
    ExtractEmbedded("Test Asset Group", "ETH");
  }

  // ---------------------------------------------------------------------------
  // Assets
  // ---------------------------------------------------------------------------

  datatype Asset = Asset(
    id: AssetId,
    name: string,
    description: Option<string>,
    quantity: int,
    currentOwner: UserId,
    assetType: AssetTypeId,
    location: string,
    manufacturer: string)

  datatype AssetField = NameField | DescriptionField | QuantityField | LocationField | ManufacturerField

  const AssetNameSpec := CharSpec(5, Some(100), false, false)
  const AssetDescriptionSpec := CharSpec(10, Some(200), true, true)
  const AssetPlaceSpec := CharSpec(1, Some(100), false, false)

  /** The column bounds of an asset, stated directly. */
  predicate AssetValid(a: Asset) {
    && 5 <= |a.name| <= 100
    && (a.description == None || a.description == Some("") || 10 <= |a.description.value| <= 200)
    && 0 <= a.quantity <= MaxQuantity
    && 1 <= |a.location| <= 100
    && 1 <= |a.manufacturer| <= 100
  }

  /** What `full_clean` reports for an asset; it reports nothing exactly when
      the asset meets its column bounds. */
  function AssetErrors(a: Asset): (errs: seq<(AssetField, FieldError)>)
    ensures errs == [] <==> AssetValid(a)
  {
    Map(e => (NameField, e), CleanChar(AssetNameSpec, Some(a.name)))
    + Map(e => (DescriptionField, e), CleanChar(AssetDescriptionSpec, a.description))
    + Map(e => (QuantityField, e), CleanCount(a.quantity))
    + Map(e => (LocationField, e), CleanChar(AssetPlaceSpec, Some(a.location)))
    + Map(e => (ManufacturerField, e), CleanChar(AssetPlaceSpec, Some(a.manufacturer)))
  }

  /** `Asset.save`: runs `full_clean` first, so an asset is stored only if it
      meets its bounds; a negative or an out-of-range quantity in particular
      is refused. */
  function SaveAsset(a: Asset): (r: Result<Asset, seq<(AssetField, FieldError)>>)
    ensures r.Success? <==> AssetValid(a)
    ensures r.Success? ==> r.value == a
    ensures a.quantity < 0 ==> r.Failure? && (QuantityField, Negative) in r.error
    ensures a.quantity > MaxQuantity ==> r.Failure? && (QuantityField, TooLarge) in r.error
  {
    var errs := AssetErrors(a);
    if errs == [] then Success(a)
    else
      var quantityErrs := Map(e => (QuantityField, e), CleanCount(a.quantity));
      assert a.quantity < 0 ==> (QuantityField, Negative) in quantityErrs;
      assert a.quantity > MaxQuantity ==> (QuantityField, TooLarge) in quantityErrs;
      Failure(errs)
  }

  // ---------------------------------------------------------------------------
  // Profiles
  // ---------------------------------------------------------------------------

  datatype Profile = Profile(
    firstName: string,
    lastName: Option<string>,
    designation: string,
    qualification: string,
    phoneNumber: Option<string>,
    address: Option<string>,
    user: UserId)

  datatype ProfileField = FirstNameField | LastNameField | DesignationField | QualificationField | PhoneField | AddressField

  /** The column bounds of a profile, stated directly: `first_name`,
      `designation` and `qualification` are required, at most 100 long;
      `last_name` at most 100 and `phone_number` at most 15 when present;
      `address` is free. */
  predicate ProfileValid(p: Profile) {
    && 1 <= |p.firstName| <= 100
    && 1 <= |p.designation| <= 100
    && 1 <= |p.qualification| <= 100
    && (p.lastName.Some? ==> |p.lastName.value| <= 100)
    && (p.phoneNumber.Some? ==> |p.phoneNumber.value| <= 15)
  }

  /** What `full_clean` reports for a profile. */
  function ProfileErrors(p: Profile): (errs: seq<(ProfileField, FieldError)>)
    ensures errs == [] <==> ProfileValid(p)
  {
    Map(e => (FirstNameField, e), CleanChar(CharSpec(1, Some(100), false, false), Some(p.firstName)))
    + Map(e => (LastNameField, e), CleanChar(CharSpec(0, Some(100), true, true), p.lastName))
    + Map(e => (DesignationField, e), CleanChar(CharSpec(0, Some(100), false, false), Some(p.designation)))
    + Map(e => (QualificationField, e), CleanChar(CharSpec(0, Some(100), false, false), Some(p.qualification)))
    + Map(e => (PhoneField, e), CleanChar(CharSpec(0, Some(15), true, true), p.phoneNumber))
    + Map(e => (AddressField, e), CleanChar(CharSpec(0, None, true, true), p.address))
  }

  /** `Profile.save`: refuses a profile that `full_clean` rejects. */
  function SaveProfile(p: Profile): (r: Result<Profile, seq<(ProfileField, FieldError)>>)
    ensures r.Success? <==> ProfileValid(p)
    ensures r.Success? ==> r.value == p
    ensures p.firstName == "" || p.designation == "" ==> r.Failure?
  {
    var errs := ProfileErrors(p);
    if errs == [] then Success(p) else Failure(errs)
  }

  // ---------------------------------------------------------------------------
  // Ownership history
  // ---------------------------------------------------------------------------

  datatype AssetOwnerHistory = AssetOwnerHistory(
    user: Option<UserId>,
    asset: Option<AssetId>,
    startDate: Instant,
    endDate: Instant,
    requisitionQuantity: int)

  /** Creating an ownership record: the start defaults to the current instant
      and the end to 2999-01-01; a requisition quantity outside 0..2147483647
      is refused by the `PositiveIntegerField` column. */
  function CreateHistory(user: Option<UserId>, asset: Option<AssetId>, start: Option<Instant>, end: Option<Instant>,
                         quantity: int, now: Instant): (r: Result<AssetOwnerHistory, FieldError>)
    ensures r.Success? <==> 0 <= quantity <= MaxQuantity
    ensures r.Failure? ==> r.error == (if quantity < 0 then Negative else TooLarge)
    ensures r.Success? ==>
              && r.value.user == user && r.value.asset == asset
              && r.value.requisitionQuantity == quantity
              && (start.None? ==> r.value.startDate == now)
              && (start.Some? ==> r.value.startDate == start.value)
              && (end.None? ==> r.value.endDate == FarFuture && DayOf(r.value.endDate) == 375835)
              && (end.Some? ==> r.value.endDate == end.value)
  {
    if quantity < 0 then Failure(Negative)
    else if quantity > MaxQuantity then Failure(TooLarge)
    else Success(AssetOwnerHistory(user, asset, start.GetOr(now), end.GetOr(FarFuture), quantity))
  }
}
