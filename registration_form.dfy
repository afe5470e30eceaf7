/** The registration form (RegistrationForm.tsx): it stores the applicant's
    details, then hands them to WhatsApp as a prefilled message. The
    optional props (`selectedPackage`, `whatsappNumber`, `siteName`) are
    `Option`s, with `None` for `undefined`. */
module RegistrationForm {
  import opened Opt
  import opened Records
  import opened Text

  datatype FormData = FormData(name: string, phone: string, address: string, package: string, notes: string)

  const EmptyForm: FormData := FormData("", "", "", "", "")

  const WhatsAppBase: string := "https://wa.me/"

  /** The form when the component mounts. */
  function InitialForm(selected: Option<string>): (f: FormData)
    ensures f.name == "" && f.phone == "" && f.address == "" && f.notes == ""
    ensures f.package == OrElse(selected, "")
  {
    FormData("", "", "", OrElse(selected, ""), "")
  }

  /** `packages.find(p => p.name === name)`. */
  function FindByName(packages: seq<Package>, name: string): (r: Option<Package>)
    ensures r.None? ==> forall i :: 0 <= i < |packages| ==> packages[i].name != name
    ensures r.Some? ==> exists i :: 0 <= i < |packages| && packages[i] == r.value && r.value.name == name
                         && forall j :: 0 <= j < i ==> packages[j].name != name
  {
    if packages == [] then None
    else if packages[0].name == name then Some(packages[0])
    else
      var r := FindByName(packages[1..], name);
      if r.Some? then
        var i :| 0 <= i < |packages[1..]| && packages[1..][i] == r.value && r.value.name == name
                 && forall j :: 0 <= j < i ==> packages[1..][j].name != name;
        assert packages[i + 1] == r.value;
        r
      else r
  }

  /** The package part of the message: speed and price of the match. */
  function Details(p: Option<Package>): string
  {
    match p
    case Some(pkg) => " (" + pkg.speed + " - " + pkg.price + ")"
    case None => ""
  }

  /** The notes part of the message, present only for non-empty notes. */
  function NotesPart(notes: string): string
  {
    if notes != "" then "%0ACatatan: " + notes else ""
  }

  /** The greeting and the four fixed lines (`%0A` is an encoded line
      break; the user's text goes in as typed). */
  function Lines(siteName: Option<string>, f: FormData): string
  {
    "Halo " + OrElse(siteName, "UNNET") + ", saya ingin mendaftar:%0A%0ANama: " + f.name
      + "%0ANo. HP: " + f.phone + "%0AAlamat: " + f.address + "%0APaket: " + f.package
  }

  /** The WhatsApp message built in `handleSubmit`. */
  function Message(siteName: Option<string>, f: FormData, packages: seq<Package>): string
  {
    Lines(siteName, f) + Details(FindByName(packages, f.package)) + NotesPart(f.notes)
  }

  /** The URL opened in a new tab. */
  function WhatsAppUrl(number: Option<string>, message: string): string
  {
    WhatsAppBase + Interpolate(number) + "?text=" + message
  }

  /** Only the first package with the chosen name matters: packages after
      it do not change the message. */
  lemma MessageIgnoresLater(siteName: Option<string>, f: FormData, ps: seq<Package>, qs: seq<Package>)
    requires exists i :: 0 <= i < |ps| && ps[i].name == f.package
    ensures Message(siteName, f, ps + qs) == Message(siteName, f, ps)
  {
    FindPrefix(ps, qs, f.package);
  }

  lemma {:induction false} FindPrefix(ps: seq<Package>, qs: seq<Package>, name: string)
    requires exists i :: 0 <= i < |ps| && ps[i].name == name
    ensures FindByName(ps + qs, name) == FindByName(ps, name)
    decreases |ps|
  {
    if ps[0].name != name {
      var i :| 0 <= i < |ps| && ps[i].name == name;
      assert ps[1..][i - 1].name == name;
      FindPrefix(ps[1..], qs, name);
      assert (ps + qs)[1..] == ps[1..] + qs;
    }
  }

  /** With no package of the chosen name, the message has no package
      details: it is the one built from an empty package list. */
  lemma MessageWithoutMatch(siteName: Option<string>, f: FormData, ps: seq<Package>)
    requires forall i :: 0 <= i < |ps| ==> ps[i].name != f.package
    ensures Message(siteName, f, ps) == Message(siteName, f, [])
  {
  }

  /** With a matching package, its speed and price follow the package line. */
  lemma MessageWithMatch(siteName: Option<string>, f: FormData, ps: seq<Package>, i: nat)
    requires i < |ps| && ps[i].name == f.package
    requires forall j :: 0 <= j < i ==> ps[j].name != f.package
    ensures Message(siteName, f, ps) == Lines(siteName, f) + " (" + ps[i].speed + " - " + ps[i].price + ")" + NotesPart(f.notes)
  {
    var r := FindByName(ps, f.package);
    var k :| 0 <= k < |ps| && ps[k] == r.value && r.value.name == f.package && forall j :: 0 <= j < k ==> ps[j].name != f.package;
    assert k == i;
  }

  /** Non-empty notes add exactly one `Catatan` line at the end. */
  lemma MessageNotes(siteName: Option<string>, f: FormData, ps: seq<Package>, notes: string)
    requires notes != ""
    ensures Message(siteName, f.(notes := notes), ps) == Message(siteName, f.(notes := ""), ps) + "%0ACatatan: " + notes
  {
  }

  /** A missing or empty site name greets with `UNNET`. */
  lemma MessageDefaultName(f: FormData, ps: seq<Package>)
    ensures Message(None, f, ps) == Message(Some(""), f, ps) == Message(Some("UNNET"), f, ps)
  {
  }

  /** The browser only fires the form's submit event when every `required`
      control has a value: name, phone and address must not be empty, and
      the package `<select>` must show a real option. React selects the
      option whose value is the package field, or else the first option,
      the `value=""` placeholder, which does not count as a value. */
  predicate Filled(f: FormData, packages: seq<Package>)
  {
    f.name != "" && f.phone != "" && f.address != ""
    && f.package != "" && FindByName(packages, f.package).Some?
  }

  /** A package field that names no listed package leaves the placeholder
      shown, so the form cannot be sent with it. */
  lemma UnlistedPackageBlocks(f: FormData, packages: seq<Package>)
    requires forall i :: 0 <= i < |packages| ==> packages[i].name != f.package
    ensures !Filled(f, packages)
  {
  }

  /** What one call of `handleSubmit` holds on to: the form data and the
      props of the render it was created in, which the timer callback
      reads. */
  datatype Submission = Submission(body: FormData, packages: seq<Package>,
                                   whatsappNumber: Option<string>, siteName: Option<string>)

  /** The form component's state. `submission` is the `handleSubmit` call
      in progress: while its POST is in flight (`loading`, not `armed`),
      then while its timer waits (`armed`). The dialog opens when the timer
      is armed and can be closed before it fires. */
  class Form {
    var data: FormData
    var loading: bool
    var showSuccess: bool
    var submission: Option<Submission>
    var armed: bool

    /** A submission is in progress exactly while the form is loading, its
        timer only waits during one, and the dialog only shows while the
        timer waits. */
    ghost predicate Valid()
      reads this
    {
      && (loading <==> submission.Some?)
      && (armed ==> loading)
      && (showSuccess ==> armed)
    }

    constructor (selected: Option<string>)
      ensures Valid()
      ensures data == InitialForm(selected) && !loading && !showSuccess && submission.None? && !armed
    {
      data := InitialForm(selected);
      loading := false;
      showSuccess := false;
      submission := None;
      armed := false;
    }

    /** Field edits. */
    method Edit(f: FormData)
      modifies this
      ensures data == f && loading == old(loading) && showSuccess == old(showSuccess)
      ensures submission == old(submission) && armed == old(armed)
    {
      data := f;
    }

    /** The `selectedPackage` effect: a truthy selection replaces the
        package field and nothing else. */
    method SelectedPackageChanged(selected: Option<string>)
      modifies this
      ensures selected.Some? && selected.value != "" ==> data == old(data).(package := selected.value)
      ensures selected.None? || selected.value == "" ==> data == old(data)
      ensures loading == old(loading) && showSuccess == old(showSuccess)
      ensures submission == old(submission) && armed == old(armed)
    {
      if selected.Some? && selected.value != "" {
        data := data.(package := selected.value);
      }
    }

    /** The submit button, `disabled={loading}`, and `handleSubmit` up to
        its `await`. While loading, or while a required control is empty
        (`Filled`), nothing is sent and nothing changes; otherwise the form
        is posted as it stands and the call keeps that data and the
        current props. */
    method Submit(packages: seq<Package>, whatsappNumber: Option<string>, siteName: Option<string>)
      returns (body: Option<FormData>)
      requires Valid()
      modifies this
      ensures Valid()
      ensures old(loading) || !Filled(old(data), packages) ==>
                body.None? && loading == old(loading) && submission == old(submission)
                && armed == old(armed) && showSuccess == old(showSuccess)
      ensures !old(loading) && Filled(old(data), packages) ==>
                body == Some(old(data)) && loading && !armed && !showSuccess
                && submission == Some(Submission(old(data), packages, whatsappNumber, siteName))
      ensures data == old(data)
    {
      if loading || !Filled(data, packages) {
        body := None;
      } else {
        body := Some(data);
        loading := true;
        submission := Some(Submission(data, packages, whatsappNumber, siteName));
      }
    }

    /** The POST settled. A resolved request shows the success dialog and
        arms the timer; a thrown one ends loading and drops the submission,
        keeping the data, with nothing shown. */
    method Settled(posted: bool)
      requires Valid() && loading && !armed
      modifies this
      ensures Valid()
      ensures posted ==> armed && showSuccess && loading && submission == old(submission)
      ensures !posted ==> !loading && !armed && !showSuccess && submission.None?
      ensures data == old(data)
    {
      if posted {
        armed := true;
        showSuccess := true;
      } else {
        loading := false;
        submission := None;
      }
    }

    /** The dialog's `onOpenChange(false)`: closing it hides the dialog and
        leaves the timer armed. */
    method CloseDialog()
      requires Valid()
      modifies this
      ensures Valid()
      ensures !showSuccess
      ensures data == old(data) && loading == old(loading) && submission == old(submission) && armed == old(armed)
    {
      showSuccess := false;
    }

    /** The timer callback: it opens WhatsApp with the message built from
        the data and props the submission kept, whatever was typed since,
        then clears the form, the package field included, and closes the
        dialog. */
    method Redirect() returns (url: string)
      requires Valid() && armed
      modifies this
      ensures Valid()
      ensures var s := old(submission).value;
        url == WhatsAppUrl(s.whatsappNumber, Message(s.siteName, s.body, s.packages))
      ensures data == EmptyForm && !showSuccess && !loading && submission.None? && !armed
    {
      var s := submission.value;
      var message := Message(s.siteName, s.body, s.packages);
      url := WhatsAppBase + Interpolate(s.whatsappNumber) + "?text=" + message;
      data := FormData("", "", "", "", "");
      showSuccess := false;
      loading := false;
      submission := None;
      armed := false;
    }
  }
}
