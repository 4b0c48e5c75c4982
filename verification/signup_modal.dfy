/** The two-step sign-up dialog of client/src/components/modals/SignUpModal.jsx:
    account details first, then a list of chosen genre ids. */
module SignUpModal {
  import opened Seqs

  datatype ModalForm = ModalForm(name: string, email: string, password: string, confirmPassword: string,
                                 interests: seq<string>)

  datatype Modal = Modal(step: int, form: ModalForm)

  function Initial(): Modal {
    Modal(1, ModalForm("", "", "", "", []))
  }

  /** `handleInterestToggle`: a chosen genre is dropped (every copy), an unchosen one appended. */
  function ToggleInterest(f: ModalForm, genreId: string): (r: ModalForm)
    ensures genreId in r.interests <==> genreId !in f.interests
    ensures genreId !in f.interests ==> r.interests == f.interests + [genreId]
    ensures genreId in f.interests ==> SubseqOf(r.interests, f.interests)
    ensures forall i :: 0 <= i < |f.interests| && f.interests[i] != genreId ==> f.interests[i] in r.interests
    ensures r.(interests := f.interests) == f
  {
    if genreId in f.interests then f.(interests := Filter(f.interests, i => i != genreId))
    else f.(interests := f.interests + [genreId])
  }

  /** Choosing a genre and un-choosing it gives back the form it started from. */
  lemma ToggleTwiceRestores(f: ModalForm, genreId: string)
    requires genreId !in f.interests
    ensures ToggleInterest(ToggleInterest(f, genreId), genreId) == f
  {
    var p := (i: string) => i != genreId;
    FilterAppend(f.interests, [genreId], p);
    FilterKeepsAll(f.interests, p);
  }

  /** The chosen genres never hold a duplicate. */
  lemma ToggleKeepsNoDup(f: ModalForm, genreId: string)
    requires NoDup(f.interests)
    ensures NoDup(ToggleInterest(f, genreId).interests)
  {
    if genreId in f.interests {
      FilterNoDup(f.interests, i => i != genreId);
    } else {
      var s := f.interests + [genreId];
      forall i, j | 0 <= i < j < |s| ensures s[i] != s[j] {
        if j == |s| - 1 {
          assert s[i] == f.interests[i];
        }
      }
    }
  }

  /** The user object handed to `setCurrentUser`. */
  datatype NewUser = NewUser(id: int, name: string, email: string, interests: seq<string>)

  /** The dialog after a submit, the user it created, and whether it closed. */
  datatype SubmitEffect = SubmitEffect(modal: Modal, created: Option<NewUser>, closed: bool)

  /** `handleSubmit` at time `now` (`Date.now()`). */
  function Submit(m: Modal, now: int): (r: SubmitEffect)
    ensures m.step == 1 ==> r.created.None? && !r.closed && r.modal.form == m.form
    ensures m.step == 1 ==> (r.modal.step == 2 <==> m.form.password == m.form.confirmPassword)
    ensures m.step == 1 ==> (r.modal.step == 1 <==> m.form.password != m.form.confirmPassword)
    ensures m.step != 1 ==> r.modal == m && r.closed
    ensures r.created.Some? <==> m.step != 1
    ensures r.created.Some? ==> r.created.value.id == now
    ensures r.created.Some? ==> r.created.value.name == m.form.name && r.created.value.email == m.form.email
                                && r.created.value.interests == m.form.interests
  {
    if m.step == 1 then
      if m.form.password != m.form.confirmPassword then SubmitEffect(m, None, false)
      else SubmitEffect(m.(step := 2), None, false)
    else SubmitEffect(m, Some(NewUser(now, m.form.name, m.form.email, m.form.interests)), true)
  }

  /** From the first step a user is created only by a second submit, after the
      passwords matched; that user carries the genres chosen in between. */
  lemma CreatedAfterMatchingPasswords(m: Modal, toggles: seq<string>, t1: int, t2: int)
    requires m.step == 1
    ensures var m2 := Submit(m, t1).modal;
            var e := Submit(m2.(form := ToggleAll(m2.form, toggles)), t2);
            (e.created.Some? <==> m.form.password == m.form.confirmPassword)
            && (e.created.Some? ==> e.created.value.interests == ToggleAll(m.form, toggles).interests)
  {
    ToggleAllKeepsAccount(m.form, toggles);
  }

  /** A sequence of interest toggles. */
  function ToggleAll(f: ModalForm, ids: seq<string>): ModalForm
    decreases |ids|
  {
    if ids == [] then f else ToggleAll(ToggleInterest(f, ids[0]), ids[1..])
  }

  /** Toggling interests never touches the account fields. */
  lemma {:induction false} ToggleAllKeepsAccount(f: ModalForm, ids: seq<string>)
    ensures ToggleAll(f, ids).(interests := f.interests) == f
    decreases |ids|
  {
    if ids != [] {
      ToggleAllKeepsAccount(ToggleInterest(f, ids[0]), ids[1..]);
    }
  }
}
