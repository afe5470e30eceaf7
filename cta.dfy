/** The contact section's form (CTA.tsx): a submit that is blocked while a
    request is outstanding, a success panel in place of the form, and a
    "Daftar Lagi" button that brings the form back. */
module Cta {
  import opened Opt

  datatype ContactData = ContactData(name: string, phone: string, address: string, package: string)

  const InitialContact: ContactData := ContactData("", "", "", "starter")

  /** Name, phone and address are `required`; the package `<select>` is
      not. */
  predicate Filled(d: ContactData) {
    d.name != "" && d.phone != "" && d.address != ""
  }

  /** The form as it starts has empty required fields, so the first
      request can only follow some typing. */
  lemma InitialNotFilled()
    ensures !Filled(InitialContact)
  {
  }

  class ContactForm {
    var data: ContactData
    var isSubmitting: bool
    var isSubmitted: bool

    /** A request is never outstanding while the success panel is shown:
        the form, and with it the submit button, is only there when nothing
        has been submitted. */
    ghost predicate Valid()
      reads this
    {
      !(isSubmitting && isSubmitted)
    }

    constructor ()
      ensures Valid()
      ensures data == InitialContact && !isSubmitting && !isSubmitted
    {
      data := InitialContact;
      isSubmitting := false;
      isSubmitted := false;
    }

    /** Typing into the form. */
    method Edit(f: ContactData)
      requires Valid()
      modifies this
      ensures Valid()
      ensures data == f && isSubmitting == old(isSubmitting) && isSubmitted == old(isSubmitted)
    {
      data := f;
    }

    /** `handleSubmit` up to its `await`: the button is disabled while a
        request is outstanding, the form is hidden once submitted, and the
        browser holds back a form with an empty required field, so only a
        filled form in neither state sends its data. */
    method Submit() returns (body: Option<ContactData>)
      requires Valid()
      modifies this
      ensures Valid()
      ensures old(isSubmitting) || old(isSubmitted) || !Filled(old(data)) ==>
        body.None? && data == old(data) && isSubmitting == old(isSubmitting) && isSubmitted == old(isSubmitted)
      ensures !old(isSubmitting) && !old(isSubmitted) && Filled(old(data)) ==>
        body == Some(old(data)) && isSubmitting && !isSubmitted && data == old(data)
    {
      if isSubmitting || isSubmitted || !Filled(data) {
        body := None;
      } else {
        isSubmitting := true;
        body := Some(data);
      }
    }

    /** The rest of `handleSubmit`: a resolved request shows the success
        panel and resets the form; a thrown one changes neither. Either way
        the request is no longer outstanding. */
    method Resolve(posted: bool)
      requires Valid() && isSubmitting
      modifies this
      ensures Valid()
      ensures !isSubmitting
      ensures posted ==> isSubmitted && data == InitialContact
      ensures !posted ==> isSubmitted == old(isSubmitted) && data == old(data)
    {
      if posted {
        isSubmitted := true;
        data := ContactData("", "", "", "starter");
      }
      isSubmitting := false;
    }

    /** "Daftar Lagi": back to the form, which keeps its data. */
    method SubmitAgain()
      requires Valid()
      modifies this
      ensures Valid()
      ensures !isSubmitted && isSubmitting == old(isSubmitting) && data == old(data)
    {
      isSubmitted := false;
    }
  }
}
