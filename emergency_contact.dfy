/** The contact record: four nullable telephone numbers (police, ambulance,
    fire, general) with setters, getters that fall back to the universal
    number 112, a validity test, a primary-number priority rule and a
    field-wise equality. */
module ContactModel {
  import opened JavaStrings

  /** The universal emergency number used wherever a number is missing. */
  const Universal: string := "112"

  /** The value held by an `EmergencyContact` object, field by field. */
  datatype ContactFields = ContactFields(
    police: Option<string>,
    ambulance: Option<string>,
    fire: Option<string>,
    general: Option<string>)

  /** The contact every lookup falls back to: 112 in all four fields. */
  const UniversalFields: ContactFields :=
    ContactFields(Some(Universal), Some(Universal), Some(Universal), Some(Universal))

  /** A getter's view of a field: the stored text, or 112 for `null`. */
  function OrUniversal(f: Option<string>): string {
    match f
    case Some(s) => s
    case None => Universal
  }

  /** `field != null && !field.trim().isEmpty()` */
  predicate HasText(f: Option<string>) {
    f.Some? && !IsBlank(f.value)
  }

  /** `isValid` on a contact's value: some field is neither `null` nor blank. */
  predicate ValidFields(f: ContactFields) {
    HasText(f.police) || HasText(f.ambulance) || HasText(f.fire) || HasText(f.general)
  }

  class EmergencyContact {
    var police: Option<string>
    var ambulance: Option<string>
    var fire: Option<string>
    var general: Option<string>

    function Fields(): ContactFields
      reads this
    {
      ContactFields(police, ambulance, fire, general)
    }

    /** The no-argument constructor: every field `null`. */
    constructor Empty()
      ensures Fields() == ContactFields(None, None, None, None)
    {
      police, ambulance, fire, general := None, None, None, None;
    }

    constructor (police: Option<string>, ambulance: Option<string>, fire: Option<string>, general: Option<string>)
      ensures Fields() == ContactFields(police, ambulance, fire, general)
    {
      this.police := police;
      this.ambulance := ambulance;
      this.fire := fire;
      this.general := general;
    }

    function GetPolice(): (r: string)
      reads this
      ensures police.Some? ==> r == police.value
      ensures police.None? ==> r == Universal
    {
      OrUniversal(police)
    }

    function GetAmbulance(): (r: string)
      reads this
      ensures ambulance.Some? ==> r == ambulance.value
      ensures ambulance.None? ==> r == Universal
    {
      OrUniversal(ambulance)
    }

    function GetFire(): (r: string)
      reads this
      ensures fire.Some? ==> r == fire.value
      ensures fire.None? ==> r == Universal
    {
      OrUniversal(fire)
    }

    function GetGeneral(): (r: string)
      reads this
      ensures general.Some? ==> r == general.value
      ensures general.None? ==> r == Universal
    {
      OrUniversal(general)
    }

    method SetPolice(police: Option<string>)
      modifies this
      ensures Fields() == old(Fields()).(police := police)
    {
      this.police := police;
    }

    method SetAmbulance(ambulance: Option<string>)
      modifies this
      ensures Fields() == old(Fields()).(ambulance := ambulance)
    {
      this.ambulance := ambulance;
    }

    method SetFire(fire: Option<string>)
      modifies this
      ensures Fields() == old(Fields()).(fire := fire)
    {
      this.fire := fire;
    }

    method SetGeneral(general: Option<string>)
      modifies this
      ensures Fields() == old(Fields()).(general := general)
    {
      this.general := general;
    }

    /** At least one field holds a number that is not blank. */
    predicate IsValid()
      reads this
    {
      ValidFields(Fields())
    }

    /** The first non-blank field in the order general, police, ambulance,
        fire, as stored (not trimmed); 112 when there is none. */
    function PrimaryEmergencyNumber(): (r: string)
      reads this
      ensures !IsValid() ==> r == Universal
      ensures IsValid() ==> HasText(Some(r)) &&
                            Some(r) in [general, police, ambulance, fire]
      ensures HasText(general) ==> r == general.value
      ensures !HasText(general) && HasText(police) ==> r == police.value
      ensures !HasText(general) && !HasText(police) && HasText(ambulance) ==> r == ambulance.value
    {
      if HasText(general) then general.value
      else if HasText(police) then police.value
      else if HasText(ambulance) then ambulance.value
      else if HasText(fire) then fire.value
      else Universal
    }

    /** `equals(Object)`: the same object, or a contact whose four fields
        are equal, `null` being equal only to `null`. */
    predicate Equals(that: EmergencyContact?)
      reads this, that
    {
      this == that ||
      (that != null &&
       police == that.police && ambulance == that.ambulance &&
       fire == that.fire && general == that.general)
    }
  }

  /** A contact made by the no-argument constructor (or with every field set
      to `null`) is not valid, and every getter and the primary number give 112. */
  lemma UnsetContactFallsBack(c: EmergencyContact)
    requires c.Fields() == ContactFields(None, None, None, None)
    ensures !c.IsValid()
    ensures c.GetPolice() == Universal && c.GetAmbulance() == Universal
    ensures c.GetFire() == Universal && c.GetGeneral() == Universal
    ensures c.PrimaryEmergencyNumber() == Universal
  {
  }

  /** Field-wise equality coincides with equality of the field values. */
  lemma EqualsIffSameFields(a: EmergencyContact, b: EmergencyContact)
    ensures a.Equals(b) <==> a.Fields() == b.Fields()
  {
  }

  lemma EqualsIsEquivalence(a: EmergencyContact, b: EmergencyContact, c: EmergencyContact)
    ensures a.Equals(a)
    ensures a.Equals(b) <==> b.Equals(a)
    ensures a.Equals(b) && b.Equals(c) ==> a.Equals(c)
  {
  }

  /** A contact never compares equal to `null`. */
  lemma NotEqualToNull(a: EmergencyContact)
    ensures !a.Equals(null)
  {
  }
}
