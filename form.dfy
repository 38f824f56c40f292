/** The submission form (src/components/confession/ConfessionForm.tsx): a
    component whose state (the fields, the error messages, the voice
    toggle, the recording, the submitting flag) is updated in place by its
    event handlers. The validation rules are pure functions of that state. */
module Form {
  import opened Wrappers
  import opened Text
  import opened Types

  datatype FormField = CityField | SexField | AgeField | DescriptionField

  const AllFields: set<FormField> := {CityField, SexField, AgeField, DescriptionField}

  const EmptyForm: ConfessionFormData := ConfessionFormData("", "", "", "")

  function FieldValue(data: ConfessionFormData, field: FormField): string {
    match field
    case CityField => data.city
    case SexField => data.sex
    case AgeField => data.age
    case DescriptionField => data.description
  }

  /** The form with one field replaced: that field reads back the new value
      and every other field is unchanged. */
  function SetField(data: ConfessionFormData, field: FormField, value: string): (r: ConfessionFormData)
    ensures FieldValue(r, field) == value
    ensures forall g :: g != field ==> FieldValue(r, g) == FieldValue(data, g)
  {
    match field
    case CityField => data.(city := value)
    case SexField => data.(sex := value)
    case AgeField => data.(age := value)
    case DescriptionField => data.(description := value)
  }

  // ------------------------------------------------------------ the rules

  const MinAge: int := 13
  const MaxAge: int := 100
  const MinDescription: int := 10
  const MaxDescription: int := 1000

  /** The city is required: it must hold a character that is not white space. */
  function CityError(city: string): Option<string>
  {
    if Trim(city) == "" then Some("City is required") else None
  }

  /** A gender must be chosen. */
  function SexError(sex: string): (r: Option<string>)
    ensures r.None? <==> sex != ""
  {
    if sex == "" then Some("Gender is required") else None
  }

  /** The age is required, and when `parseInt` reads a number it must lie in
      13..100; a text `parseInt` reads as NaN fails neither comparison and so
      passes. */
  function AgeError(age: string): Option<string>
  {
    if age == "" then Some("Age is required")
    else
      var n := ParseInt(age);
      if n.Some? && (n.value < MinAge || n.value > MaxAge) then Some("Age must be between 13 and 100")
      else None
  }

  /** A text confession, trimmed, must be 10 to 1000 characters long (the
      first failing check gives the message); a voice confession needs a
      recording and its description is not checked. */
  function DescriptionError(description: string, useVoice: bool, hasAudio: bool): Option<string>
  {
    if !useVoice then
      var t := Trim(description);
      if t == "" then Some("Confession is required")
      else if |t| < MinDescription then Some("Confession must be at least 10 characters")
      else if |t| > MaxDescription then Some("Confession must be less than 1000 characters")
      else None
    else if !hasAudio then Some("Please record your confession.")
    else None
  }

  /** The city passes exactly when it holds a non-space character. */
  lemma CityRule(city: string)
    ensures CityError(city).None? <==> exists i :: 0 <= i < |city| && !IsSpace(city[i])
    ensures CityError(city).Some? ==> CityError(city).value == "City is required"
  {
    TrimEmpty(city);
  }

  /** "Age is required" exactly for the empty text; the range message
      exactly for a number `parseInt` reads outside 13..100; no message
      otherwise, including a text `parseInt` reads as NaN. */
  lemma AgeRule(age: string)
    ensures AgeError(age) == Some("Age is required") <==> age == ""
    ensures AgeError(age) == Some("Age must be between 13 and 100") <==>
      age != "" && ParseInt(age).Some? && (ParseInt(age).value < MinAge || ParseInt(age).value > MaxAge)
    ensures AgeError(age).None? <==> age != "" && (ParseInt(age).None? || MinAge <= ParseInt(age).value <= MaxAge)
  {
  }

  /** In voice mode the description passes exactly when a recording
      exists; in text mode exactly when the trimmed text is 10 to 1000
      characters long, and the first failing check names the message. */
  lemma DescriptionRule(description: string, useVoice: bool, hasAudio: bool)
    ensures useVoice ==> (DescriptionError(description, useVoice, hasAudio).None? <==> hasAudio)
    ensures !useVoice ==> (DescriptionError(description, useVoice, hasAudio).None? <==> MinDescription <= |Trim(description)| <= MaxDescription)
    ensures !useVoice && Trim(description) == "" ==> DescriptionError(description, useVoice, hasAudio) == Some("Confession is required")
    ensures !useVoice && 0 < |Trim(description)| < MinDescription ==> DescriptionError(description, useVoice, hasAudio) == Some("Confession must be at least 10 characters")
    ensures !useVoice && |Trim(description)| > MaxDescription ==> DescriptionError(description, useVoice, hasAudio) == Some("Confession must be less than 1000 characters")
  {
  }

  /** One optional message per field: what validation says about each. */
  datatype Messages = Messages(city: Option<string>, sex: Option<string>, age: Option<string>, description: Option<string>)

  /** The message for one field. */
  function MessageOf(ms: Messages, f: FormField): Option<string> {
    match f
    case CityField => ms.city
    case SexField => ms.sex
    case AgeField => ms.age
    case DescriptionField => ms.description
  }

  /** Each rule applied to its field. */
  function Validate(data: ConfessionFormData, useVoice: bool, hasAudio: bool): Messages {
    Messages(CityError(data.city), SexError(data.sex), AgeError(data.age), DescriptionError(data.description, useVoice, hasAudio))
  }

  /** Records the message of field `f`, if there is one. */
  function AddMessage(errors: map<FormField, string>, f: FormField, m: Option<string>): map<FormField, string> {
    if m.Some? then errors[f := m.value] else errors
  }

  /** The messages as the component keeps them: an entry for each field
      that has one, and no other. */
  function ErrorMap(ms: Messages): (m: map<FormField, string>)
    ensures forall f :: f in m <==> MessageOf(ms, f).Some?
    ensures forall f :: f in m ==> m[f] == MessageOf(ms, f).value
  {
    var m1 := AddMessage(map[], CityField, ms.city);
    var m2 := AddMessage(m1, SexField, ms.sex);
    var m3 := AddMessage(m2, AgeField, ms.age);
    AddMessage(m3, DescriptionField, ms.description)
  }

  /** The messages validation shows for a form: one for each failing field. */
  function FormErrors(data: ConfessionFormData, useVoice: bool, hasAudio: bool): (m: map<FormField, string>)
    ensures forall f :: f in m <==> MessageOf(Validate(data, useVoice, hasAudio), f).Some?
  {
    ErrorMap(Validate(data, useVoice, hasAudio))
  }

  /** Every field passes. */
  predicate FormValid(data: ConfessionFormData, useVoice: bool, hasAudio: bool) {
    var ms := Validate(data, useVoice, hasAudio);
    ms.city.None? && ms.sex.None? && ms.age.None? && ms.description.None?
  }

  /** No message at all exactly when every field passes. */
  lemma ErrorMapEmpty(ms: Messages)
    ensures ErrorMap(ms) == map[] <==> ms.city.None? && ms.sex.None? && ms.age.None? && ms.description.None?
  {
    var m := ErrorMap(ms);
    if ms.city.Some? { assert CityField in m; }
    if ms.sex.Some? { assert SexField in m; }
    if ms.age.Some? { assert AgeField in m; }
    if ms.description.Some? { assert DescriptionField in m; }
  }

  /** The form is valid exactly when validation shows no message. */
  lemma FormValidNoErrors(data: ConfessionFormData, useVoice: bool, hasAudio: bool)
    ensures FormValid(data, useVoice, hasAudio) <==> FormErrors(data, useVoice, hasAudio) == map[]
  {
    ErrorMapEmpty(Validate(data, useVoice, hasAudio));
  }

  /** The form passes validation exactly when the city has a non-space
      character, a gender is chosen, the age is given and not a number
      outside 13..100, and either a recording exists (voice) or the trimmed
      text is 10 to 1000 characters long. */
  lemma FormValidIff(data: ConfessionFormData, useVoice: bool, hasAudio: bool)
    ensures FormValid(data, useVoice, hasAudio) <==>
      && (exists i :: 0 <= i < |data.city| && !IsSpace(data.city[i]))
      && data.sex != ""
      && data.age != ""
      && (ParseInt(data.age).None? || MinAge <= ParseInt(data.age).value <= MaxAge)
      && (if useVoice then hasAudio else MinDescription <= |Trim(data.description)| <= MaxDescription)
  {
    CityRule(data.city);
    AgeRule(data.age);
    DescriptionRule(data.description, useVoice, hasAudio);
  }

  /** The age limits are inclusive: 13 and 100 are accepted, 12 and 101 are not. */
  lemma AgeLimits()
    ensures AgeError(NatToString(13)).None?
    ensures AgeError(NatToString(100)).None?
    ensures AgeError(NatToString(12)) == Some("Age must be between 13 and 100")
    ensures AgeError(NatToString(101)) == Some("Age must be between 13 and 100")
  {
    ParseIntOfNat(13);
    ParseIntOfNat(100);
    ParseIntOfNat(12);
    ParseIntOfNat(101);
  }

  /** The payload `handleSubmit` posts: a multipart form with the recording
      when voice mode is on and a recording exists, the fields as JSON
      otherwise. */
  function ChoosePayload(data: ConfessionFormData, useVoice: bool, audioBlob: Option<Blob>): (p: Payload)
    ensures p.Multipart? <==> useVoice && audioBlob.Some?
    ensures p.Multipart? ==> p == Multipart(data.city, data.sex, data.age, audioBlob.value, "confession.webm")
    ensures p.Json? ==> p.form == data
  {
    if useVoice && audioBlob.Some? then Multipart(data.city, data.sex, data.age, audioBlob.value, "confession.webm")
    else Json(data)
  }

  /** A form that passes validation in voice mode always posts its
      recording; in text mode it posts JSON whose trimmed description is
      10 to 1000 characters long. */
  lemma ValidPayload(data: ConfessionFormData, useVoice: bool, audioBlob: Option<Blob>)
    requires FormValid(data, useVoice, audioBlob.Some?)
    ensures useVoice ==> ChoosePayload(data, useVoice, audioBlob).Multipart?
    ensures !useVoice ==> ChoosePayload(data, useVoice, audioBlob).Json?
    ensures !useVoice ==> MinDescription <= |Trim(ChoosePayload(data, useVoice, audioBlob).form.description)| <= MaxDescription
  {
    DescriptionRule(data.description, useVoice, audioBlob.Some?);
  }

  // ------------------------------------------------------- the component

  class ConfessionForm {
    var formData: ConfessionFormData
    var errors: map<FormField, string>
    var useVoice: bool
    var audioBlob: Option<Blob>
    var isSubmitting: bool

    /** The initial state: empty fields, no messages, text mode, no recording. */
    constructor()
      ensures formData == EmptyForm && errors == map[] && !useVoice && audioBlob.None? && !isSubmitting
    {
      formData := EmptyForm;
      errors := map[];
      useVoice := false;
      audioBlob := None;
      isSubmitting := false;
    }

    /** A keystroke in one field: stores the value, and blanks that field's
        message if it was showing one. */
    method HandleInputChange(field: FormField, value: string)
      modifies this
      ensures formData == SetField(old(formData), field, value)
      ensures errors == if field in old(errors) && old(errors)[field] != "" then old(errors)[field := ""] else old(errors)
      ensures useVoice == old(useVoice) && audioBlob == old(audioBlob) && isSubmitting == old(isSubmitting)
    {
      formData := SetField(formData, field, value);
      if field in errors && errors[field] != "" {
        errors := errors[field := ""];
      }
    }

    /** Checks every field, replaces the messages by those of the failing
        fields, and reports whether none failed. */
    method ValidateForm() returns (ok: bool)
      modifies this
      ensures errors == FormErrors(formData, useVoice, audioBlob.Some?)
      ensures ok <==> FormValid(formData, useVoice, audioBlob.Some?)
      ensures ok <==> errors == map[]
      ensures formData == old(formData) && useVoice == old(useVoice)
      ensures audioBlob == old(audioBlob) && isSubmitting == old(isSubmitting)
    {
      var data, voice, blob := formData, useVoice, audioBlob;
      var newErrors: map<FormField, string> := map[];
      newErrors := AddMessage(newErrors, CityField, CityError(data.city));
      newErrors := AddMessage(newErrors, SexField, SexError(data.sex));
      newErrors := AddMessage(newErrors, AgeField, AgeError(data.age));
      newErrors := AddMessage(newErrors, DescriptionField, DescriptionError(data.description, voice, blob.Some?));
      ghost var ms := Validate(data, voice, blob.Some?);
      assert newErrors == ErrorMap(ms);
      ErrorMapEmpty(ms);
      errors := newErrors;
      ok := |newErrors| == 0;
    }

    /** The recorder hands over a recording (or none). */
    method HandleRecordingComplete(blob: Option<Blob>)
      modifies this
      ensures audioBlob == blob
      ensures formData == old(formData) && errors == old(errors) && useVoice == old(useVoice) && isSubmitting == old(isSubmitting)
    {
      audioBlob := blob;
    }

    /** The "Record Voice" / "Type Instead" button. */
    method ToggleVoice()
      modifies this
      ensures useVoice == !old(useVoice)
      ensures formData == old(formData) && errors == old(errors) && audioBlob == old(audioBlob) && isSubmitting == old(isSubmitting)
    {
      useVoice := !useVoice;
    }

    /** Closing clears the fields, the recording and the messages; the
        mode is kept. */
    method HandleClose()
      modifies this
      ensures formData == EmptyForm && audioBlob.None? && errors == map[]
      ensures useVoice == old(useVoice) && isSubmitting == old(isSubmitting)
    {
      formData := EmptyForm;
      audioBlob := None;
      errors := map[];
    }

    /** Submitting: a form that fails validation shows its messages and
        sends nothing. A valid one is posted once, as `ChoosePayload`
        chooses; `accepts` says whether the post succeeded. A success
        clears the fields, the recording and the messages; a failure keeps
        them. Either way the submitting flag ends false and the mode is
        kept. */
    method HandleSubmit(accepts: Payload -> bool) returns (sent: Option<Payload>)
      modifies this
      ensures errors == (if sent.Some? && accepts(sent.value) then map[] else FormErrors(old(formData), old(useVoice), old(audioBlob).Some?))
      ensures sent.Some? <==> FormValid(old(formData), old(useVoice), old(audioBlob).Some?)
      ensures sent.Some? ==> sent.value == ChoosePayload(old(formData), old(useVoice), old(audioBlob))
      ensures sent.Some? && accepts(sent.value) ==> formData == EmptyForm && audioBlob.None?
      ensures !(sent.Some? && accepts(sent.value)) ==> formData == old(formData) && audioBlob == old(audioBlob)
      ensures sent.Some? ==> !isSubmitting
      ensures sent.None? ==> isSubmitting == old(isSubmitting)
      ensures useVoice == old(useVoice)
    {
      var ok := ValidateForm();
      if !ok {
        return None;
      }
      isSubmitting := true;
      var data, voice, blob := formData, useVoice, audioBlob;
      var payload: Payload;
      if voice && blob.Some? {
        payload := Multipart(data.city, data.sex, data.age, blob.value, "confession.webm");
      } else {
        payload := Json(data);
      }
      assert payload == ChoosePayload(data, voice, blob);
      sent := Some(payload);
      if accepts(payload) {
        formData := EmptyForm;
        audioBlob := None;
        errors := map[];
      }
      isSubmitting := false;
    }
  }
}
