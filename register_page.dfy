// client/src/components/Auth/Register.js: the two-step registration form. Step 1
// asks for the salon's name, address and phone, step 2 for the e-mail and the
// password twice. The form state is the field map, the step shown and a loading
// flag; the page's markup is outside the model.

module RegisterPage {
  import opened Optional
  import opened Text
  import opened Js
  import AuthState

  const NameField := "name"
  const AddressField := "address"
  const PhoneField := "phone"
  const EmailField := "email"
  const PasswordField := "password"
  const ConfirmField := "confirmPassword"

  /** The fields the form starts with, all empty. */
  const Fields: set<string> := {NameField, AddressField, PhoneField, EmailField, PasswordField, ConfirmField}

  const MinPasswordLength := 6

  /** validateStep1: name, address and phone each non-empty once trimmed. */
  predicate Step1Ok(data: map<string, string>)
    requires Fields <= data.Keys
  {
    Trim(data[NameField]) != "" && Trim(data[AddressField]) != "" && Trim(data[PhoneField]) != ""
  }

  /** validateStep2: an e-mail non-empty once trimmed, a password of at least six
      characters, and the same password typed twice. */
  predicate Step2Ok(data: map<string, string>)
    requires Fields <= data.Keys
  {
    && Trim(data[EmailField]) != ""
    && |data[PasswordField]| >= MinPasswordLength
    && data[PasswordField] == data[ConfirmField]
  }

  /** A field that is not blank: it has a character other than white space. */
  predicate Filled(s: string)
  {
    exists i :: 0 <= i < |s| && !IsSpace(s[i])
  }

  /** Step 1 passes exactly when none of its three fields is blank. */
  lemma Step1Filled(data: map<string, string>)
    requires Fields <= data.Keys
    ensures Step1Ok(data) <==> Filled(data[NameField]) && Filled(data[AddressField]) && Filled(data[PhoneField])
  {
    TrimEmptyIffAllSpace(data[NameField]);
    TrimEmptyIffAllSpace(data[AddressField]);
    TrimEmptyIffAllSpace(data[PhoneField]);
  }

  /** Step 2 passes exactly when the e-mail is not blank and the password is long
      enough and confirmed. */
  lemma Step2Filled(data: map<string, string>)
    requires Fields <= data.Keys
    ensures Step2Ok(data) <==>
      (Filled(data[EmailField]) && |data[PasswordField]| >= MinPasswordLength
       && data[PasswordField] == data[ConfirmField])
  {
    TrimEmptyIffAllSpace(data[EmailField]);
  }

  class RegisterForm {
    var formData: map<string, string>
    var step: int
    var loading: bool

    /** The form always holds its six fields. */
    predicate Valid()
      reads this
    {
      Fields <= formData.Keys
    }

    /** The first render: six empty fields, step 1, not loading. */
    constructor ()
      ensures Valid()
      ensures formData == map k | k in Fields :: ""
      ensures step == 1 && !loading
    {
      formData := map k | k in Fields :: "";
      step := 1;
      loading := false;
    }

    /** handleChange: the named field takes the typed value; every other field keeps its own. */
    method HandleChange(name: string, value: string)
      requires Valid()
      modifies this
      ensures Valid()
      ensures formData == old(formData)[name := value]
      ensures step == old(step) && loading == old(loading)
    {
      formData := formData[name := value];
    }

    /** nextStep: to step 2 only when step 1 passes. */
    method NextStep()
      requires Valid()
      modifies this
      ensures Valid()
      ensures step == (if Step1Ok(old(formData)) then 2 else old(step))
      ensures formData == old(formData) && loading == old(loading)
    {
      if Step1Ok(formData) {
        step := 2;
      }
    }

    /** prevStep: back to step 1. */
    method PrevStep()
      modifies this
      ensures step == 1
      ensures formData == old(formData) && loading == old(loading)
    {
      step := 1;
    }

    /** handleSubmit with the provider useAuth returned (null outside a provider):
        nothing happens unless step 2 passes; otherwise the form turns to loading and
        hands every field but the confirmation to register. The provider's register
        reports success, so loading stays on; the fallback's returns nothing, which
        turns loading off again. */
    method HandleSubmit(auth: AuthState.AuthProvider?) returns (sent: Option<map<string, string>>)
      requires Valid()
      modifies this, auth
      ensures Valid()
      ensures formData == old(formData) && step == old(step)
      ensures !Step2Ok(formData) ==> sent == None && loading == old(loading)
      ensures auth != null ==> auth.loading == old(auth.loading)
      ensures !Step2Ok(formData) && auth != null ==> auth.user == old(auth.user)
      ensures Step2Ok(formData) ==> sent == Some(Payload(formData))
      ensures Step2Ok(formData) ==> (loading <==> auth != null)
      ensures Step2Ok(formData) && auth != null ==>
        auth.user == Some(AuthState.User(1, Str(formData[NameField]), Str(formData[EmailField])))
    {
      if !Step2Ok(formData) {
        return None;
      }
      loading := true;
      var dataToSend := Payload(formData);
      sent := Some(dataToSend);
      var success := false;
      if auth != null {
        success := auth.Register(dataToSend);
      }
      if !success {
        loading := false;
      }
    }
  }

  /** `const { confirmPassword, ...dataToSend } = formData`: what register receives
      never holds the confirmation, and holds every other field of the form unchanged. */
  function Payload(data: map<string, string>): (sent: map<string, string>)
    requires Fields <= data.Keys
    ensures sent.Keys == data.Keys - {ConfirmField}
    ensures forall k :: k in data && k != ConfirmField ==> k in sent && sent[k] == data[k]
    ensures AuthState.Field(sent, NameField) == Str(data[NameField])
    ensures AuthState.Field(sent, EmailField) == Str(data[EmailField])
  {
    data - {ConfirmField}
  }
}
