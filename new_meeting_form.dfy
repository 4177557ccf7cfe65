/**
 * The new-meeting form: the e-mail check, the list of invited e-mails, the form
 * validation and the gate in front of the create-meeting request.
 *
 * Date-time inputs are `Option<int>`: `None` is the empty input, `Some(t)` the
 * instant it denotes in milliseconds. The regular expression of `validateEmail` is
 * replaced by a hand-written test whose equivalence with the pattern is proved.
 */
module NewMeetingForm {
  import opened Wrappers
  import opened JsString
  import opened Seqs

  /** The first index of `c` in `s`. */
  function IndexOf(s: string, c: char): (i: nat)
    requires c in s
    ensures i < |s| && s[i] == c && c !in s[..i]
  {
    if s[0] == c then 0
    else
      assert c in s[1..] by { assert s == [s[0]] + s[1..]; }
      var i := IndexOf(s[1..], c);
      assert s[..i + 1] == [s[0]] + s[1..][..i];
      i + 1
  }

  /** A dot with at least one character on either side. */
  predicate HasInnerDot(d: string) {
    |d| >= 3 && '.' in d[1..|d| - 1]
  }

  /** `validateEmail`, written out: no white space, exactly one `@` and not first, and an inner dot after it. */
  predicate ValidEmail(s: string) {
    && NoWhitespace(s)
    && '@' in s
    && var i := IndexOf(s, '@');
       0 < i && '@' !in s[i + 1..] && HasInnerDot(s[i + 1..])
  }

  /** `s[lo..hi]` is non-empty and matches `[^\s@]+`. */
  ghost predicate Segment(s: string, lo: int, hi: int)
    requires 0 <= lo <= hi <= |s|
  {
    lo < hi && forall k :: lo <= k < hi ==> !IsWhitespace(s[k]) && s[k] != '@'
  }

  /** The pattern `^[^\s@]+@[^\s@]+\.[^\s@]+$`: some split `a + "@" + b + "." + c` into segments. */
  ghost predicate MatchesEmailPattern(s: string) {
    exists i, j :: 0 <= i < j < |s| && s[i] == '@' && s[j] == '.'
      && Segment(s, 0, i) && Segment(s, i + 1, j) && Segment(s, j + 1, |s|)
  }

  /** A valid e-mail splits as the pattern requires. */
  lemma ValidEmailIsPattern(s: string)
    requires ValidEmail(s)
    ensures MatchesEmailPattern(s)
  {
    var i := IndexOf(s, '@');
    var d := s[i + 1..];
    var inner := d[1..|d| - 1];
    var k :| 0 <= k < |inner| && inner[k] == '.';
    var j := i + 2 + k;
    assert s[j] == '.' by { assert inner[k] == d[k + 1] == s[j]; }
    forall m | 0 <= m < |s| && m != i ensures s[m] != '@' {
      if m < i {
        assert s[m] == s[..i][m];
      } else {
        assert s[m] == d[m - i - 1];
      }
    }
    assert Segment(s, 0, i) && Segment(s, i + 1, j) && Segment(s, j + 1, |s|);
  }

  /** A string the pattern matches passes the hand-written test. */
  lemma PatternIsValidEmail(s: string, i: int, j: int)
    requires 0 <= i < j < |s| && s[i] == '@' && s[j] == '.'
    requires Segment(s, 0, i) && Segment(s, i + 1, j) && Segment(s, j + 1, |s|)
    ensures ValidEmail(s)
  {
    assert forall m :: 0 <= m < |s| && m != i ==> !IsWhitespace(s[m]) && s[m] != '@' by {
      forall m | 0 <= m < |s| && m != i ensures !IsWhitespace(s[m]) && s[m] != '@' {
        if m < i {
        } else if m < j {
        } else if m > j {
        }
      }
    }
    assert NoWhitespace(s);
    assert '@' in s by { assert s[i] == '@'; }
    assert IndexOf(s, '@') == i;
    var d := s[i + 1..];
    assert '@' !in d by {
      forall m | 0 <= m < |d| ensures d[m] != '@' {
        assert d[m] == s[i + 1 + m];
      }
    }
    assert d[1..|d| - 1][j - i - 2] == '.';
  }

  /** The hand-written test accepts exactly the strings the pattern matches. */
  lemma ValidEmailMatchesPattern(s: string)
    ensures ValidEmail(s) <==> MatchesEmailPattern(s)
  {
    if ValidEmail(s) {
      ValidEmailIsPattern(s);
    }
    if MatchesEmailPattern(s) {
      var i, j :| 0 <= i < j < |s| && s[i] == '@' && s[j] == '.'
        && Segment(s, 0, i) && Segment(s, i + 1, j) && Segment(s, j + 1, |s|);
      PatternIsValidEmail(s, i, j);
    }
  }

  /** The e-mail pattern admits no white space, so trimming a valid e-mail changes nothing. */
  lemma ValidEmailTrimmed(s: string)
    requires ValidEmail(s)
    ensures Trim(s) == s && !IsBlank(s)
  {
    TrimWithoutWhitespace(s);
  }

  datatype FormErrors = FormErrors(title: Option<string>, startTime: Option<string>, endTime: Option<string>, email: Option<string>)

  const NoErrors: FormErrors := FormErrors(None, None, None, None)

  /** Whether any field carries an error message. */
  predicate HasErrors(e: FormErrors) {
    e.title.Some? || e.startTime.Some? || e.endTime.Some? || e.email.Some?
  }

  /** `validateForm`: later checks overwrite the message an earlier one left on the same field. */
  function ValidateForm(title: string, startTime: Option<int>, endTime: Option<int>, now: int): (e: FormErrors)
    ensures !HasErrors(e) <==>
      !IsBlank(title) && startTime.Some? && endTime.Some? && startTime.value < endTime.value && now <= startTime.value
    ensures e.email.None?
    ensures e.title.Some? <==> IsBlank(title)
    ensures e.startTime.Some? <==> startTime.None? || startTime.value < now
    ensures e.endTime.Some? <==> endTime.None? || (startTime.Some? && startTime.value >= endTime.value)
    ensures IsBlank(title) ==> e.title == Some("Title is required")
    ensures startTime.None? ==> e.startTime == Some("Start time is required")
    ensures endTime.None? ==> e.endTime == Some("End time is required")
    ensures startTime.Some? && endTime.Some? && startTime.value >= endTime.value ==>
      e.endTime == Some("End time must be after start time")
    ensures startTime.Some? && startTime.value < now ==> e.startTime == Some("Start time cannot be in the past")
  {
    var e1 := if IsBlank(title) then NoErrors.(title := Some("Title is required")) else NoErrors;
    var e2 := if startTime.None? then e1.(startTime := Some("Start time is required")) else e1;
    var e3 := if endTime.None? then e2.(endTime := Some("End time is required")) else e2;
    var e4 := if startTime.Some? && endTime.Some? && startTime.value >= endTime.value
              then e3.(endTime := Some("End time must be after start time")) else e3;
    if startTime.Some? && startTime.value < now then e4.(startTime := Some("Start time cannot be in the past")) else e4
  }

  /** The body of the create-meeting request. */
  datatype MeetingRequest = MeetingRequest(
    title: string, startTime: int, endTime: int, isActive: bool, participantEmails: seq<string>)

  class Form {
    var title: string
    var startTime: Option<int>
    var endTime: Option<int>
    var email: string
    var participantEmails: seq<string>
    var errors: FormErrors
    var isLoading: bool

    /** Every invited e-mail is valid and none is listed twice. */
    ghost predicate Valid()
      reads this
    {
      && Distinct(participantEmails)
      && forall k :: 0 <= k < |participantEmails| ==> ValidEmail(participantEmails[k])
    }

    constructor ()
      ensures Valid()
      ensures title == "" && startTime == None && endTime == None && email == ""
      ensures participantEmails == [] && errors == NoErrors && !isLoading
    {
      title, startTime, endTime, email := "", None, None, "";
      participantEmails, errors, isLoading := [], NoErrors, false;
    }

    /** `addParticipant`: appends the draft e-mail, or records why it cannot. */
    method AddParticipant()
      requires Valid()
      modifies this
      ensures Valid()
      ensures title == old(title) && startTime == old(startTime) && endTime == old(endTime) && isLoading == old(isLoading)
      ensures IsBlank(old(email)) ==>
        && participantEmails == old(participantEmails) && email == old(email)
        && errors == old(errors).(email := Some("Email is required"))
      ensures !IsBlank(old(email)) && !ValidEmail(old(email)) ==>
        && participantEmails == old(participantEmails) && email == old(email)
        && errors == old(errors).(email := Some("Invalid email format"))
      ensures !IsBlank(old(email)) && ValidEmail(old(email)) && old(email) in old(participantEmails) ==>
        && participantEmails == old(participantEmails) && email == old(email)
        && errors == old(errors).(email := Some("Email already added"))
      ensures !IsBlank(old(email)) && ValidEmail(old(email)) && old(email) !in old(participantEmails) ==>
        && Trim(old(email)) == old(email)
        && participantEmails == old(participantEmails) + [Trim(old(email))]
        && email == "" && errors == old(errors).(email := None)
    {
      if IsBlank(email) {
        errors := errors.(email := Some("Email is required"));
        return;
      }
      if !ValidEmail(email) {
        errors := errors.(email := Some("Invalid email format"));
        return;
      }
      if email in participantEmails {
        errors := errors.(email := Some("Email already added"));
        return;
      }
      ValidEmailTrimmed(email);
      ghost var before := participantEmails;
      participantEmails := participantEmails + [Trim(email)];
      forall i, j | 0 <= i < j < |participantEmails| ensures participantEmails[i] != participantEmails[j] {
        if j == |before| {
          assert participantEmails[i] == before[i];
        }
      }
      email := "";
      errors := errors.(email := None);
    }

    /** `removeParticipant`: every occurrence of the e-mail goes, the rest keep their order. */
    method RemoveParticipant(emailToRemove: string)
      requires Valid()
      modifies this
      ensures Valid()
      ensures participantEmails == Without(old(participantEmails), emailToRemove)
      ensures title == old(title) && startTime == old(startTime) && endTime == old(endTime)
      ensures email == old(email) && errors == old(errors) && isLoading == old(isLoading)
    {
      WithoutDistinct(participantEmails, emailToRemove);
      ghost var before := participantEmails;
      participantEmails := Without(participantEmails, emailToRemove);
      forall k | 0 <= k < |participantEmails| ensures ValidEmail(participantEmails[k]) {
        assert participantEmails[k] in before;
      }
    }

    /**
     * `handleSubmit`: with validation errors they are shown and nothing is sent;
     * otherwise the request is sent, `postSucceeded` is the server's answer and a
     * success navigates to the meetings list. `isLoading` is back to false either way.
     */
    method Submit(now: int, postSucceeded: bool) returns (request: Option<MeetingRequest>, navigateTo: Option<string>)
      requires Valid()
      modifies this
      ensures Valid()
      ensures title == old(title) && startTime == old(startTime) && endTime == old(endTime)
      ensures email == old(email) && participantEmails == old(participantEmails)
      ensures var formErrors := ValidateForm(old(title), old(startTime), old(endTime), now);
        if HasErrors(formErrors) then
          request == None && navigateTo == None && errors == formErrors && isLoading == old(isLoading)
        else
          && request == Some(MeetingRequest(title, startTime.value, endTime.value, false, participantEmails))
          && navigateTo == (if postSucceeded then Some("/meetings") else None)
          && errors == old(errors) && !isLoading
    {
      var formErrors := ValidateForm(title, startTime, endTime, now);
      if HasErrors(formErrors) {
        errors := formErrors;
        return None, None;
      }
      isLoading := true;
      request := Some(MeetingRequest(title, startTime.value, endTime.value, false, participantEmails));
      navigateTo := if postSucceeded then Some("/meetings") else None;
      isLoading := false;
    }
  }
}
