/**
 * The contact form: field validation with its `aria-invalid` markers, the
 * honeypot that silently rejects bots, and the choice between opening the
 * user's mail app and posting to the form's endpoint.
 */
module Contact {
  import opened Wrappers
  import opened JsText

  const MinNameLength := 2
  const MinMessageLength := 10

  /** The values of the form's `name`, `email` and `message` fields. */
  datatype ContactFields = ContactFields(name: string, email: string, message: string)

  /**
   * The result of `validate`: whether the form is valid, and the
   * `aria-invalid` attribute it leaves on each of the three fields.
   */
  datatype Validation = Validation(ok: bool, nameInvalid: string, emailInvalid: string, messageInvalid: string)

  /** A non-empty run of characters that are neither white space nor '@': `[^\s@]+`. */
  predicate PlainPart(s: string) {
    s != [] && forall k :: 0 <= k < |s| ==> !IsWhitespace(s[k]) && s[k] != '@'
  }

  /** `s` splits as `[^\s@]+` '@' `[^\s@]+` '.' `[^\s@]+` with the '@' at `i` and the '.' at `j`. */
  predicate MatchesAt(s: string, i: int, j: int) {
    && 0 <= i < j < |s|
    && s[i] == '@' && s[j] == '.'
    && PlainPart(s[..i]) && PlainPart(s[i + 1..j]) && PlainPart(s[j + 1..])
  }

  /** Whether `s` matches the regular expression `^[^\s@]+@[^\s@]+\.[^\s@]+$`. */
  predicate MatchesEmailPattern(s: string)
    ensures MatchesEmailPattern(s) ==> |s| >= 5 && '@' in s && '.' in s
  {
    exists i, j | 0 <= i < j < |s| :: MatchesAt(s, i, j)
  }

  /**
   * The shape the pattern accepts, stated directly: no white space, a single
   * '@' that is not first, and a '.' after it with at least one character on
   * each side (the part between '@' and that '.' may hold further dots).
   */
  lemma EmailPatternCharacterised(s: string, i: nat)
    requires i < |s| && s[i] == '@'
    ensures MatchesEmailPattern(s) <==>
              && (forall k :: 0 <= k < |s| ==> !IsWhitespace(s[k]))
              && (forall k :: 0 <= k < |s| && s[k] == '@' ==> k == i)
              && 0 < i
              && exists j :: i + 1 < j < |s| - 1 && s[j] == '.'
  {
    if MatchesEmailPattern(s) {
      var i', j :| 0 <= i' < j < |s| && MatchesAt(s, i', j);
      forall k | 0 <= k < |s|
        ensures !IsWhitespace(s[k]) && (k != i' ==> s[k] != '@')
      {
        if k < i' {
          assert s[k] == s[..i'][k];
        } else if i' < k < j {
          assert s[k] == s[i' + 1..j][k - i' - 1];
        } else if k == j {
        } else if k > j {
          assert s[k] == s[j + 1..][k - j - 1];
        }
      }
      assert i == i';
      assert i + 1 < j < |s| - 1 && s[j] == '.';
    }
    if && (forall k :: 0 <= k < |s| ==> !IsWhitespace(s[k]))
       && (forall k :: 0 <= k < |s| && s[k] == '@' ==> k == i)
       && 0 < i
       && exists j :: i + 1 < j < |s| - 1 && s[j] == '.'
    {
      var j :| i + 1 < j < |s| - 1 && s[j] == '.';
      assert PlainPart(s[..i]);
      assert PlainPart(s[i + 1..j]);
      assert PlainPart(s[j + 1..]);
      assert MatchesAt(s, i, j);
    }
  }

  /** A string with no '@' never matches the pattern. */
  lemma NoAtSignNoMatch(s: string)
    requires forall k :: 0 <= k < |s| ==> s[k] != '@'
    ensures !MatchesEmailPattern(s)
  {
  }

  /**
   * `validate`: the trimmed name needs at least 2 characters, the trimmed
   * email must match the pattern, and the trimmed message needs at least 10
   * characters, where characters are UTF-16 code units as `length` counts
   * them. All three markers are set every time, whatever the others.
   */
  function Validate(f: ContactFields): (v: Validation)
    ensures v.ok <==> && Utf16Length(Trim(f.name)) >= MinNameLength
                      && MatchesEmailPattern(Trim(f.email))
                      && Utf16Length(Trim(f.message)) >= MinMessageLength
    ensures v.nameInvalid == BooleanString(Utf16Length(Trim(f.name)) < MinNameLength)
    ensures v.emailInvalid == BooleanString(!MatchesEmailPattern(Trim(f.email)))
    ensures v.messageInvalid == BooleanString(Utf16Length(Trim(f.message)) < MinMessageLength)
    ensures v.ok <==> v.nameInvalid == "false" && v.emailInvalid == "false" && v.messageInvalid == "false"
  {
    var nameBad := f.name == "" || Utf16Length(Trim(f.name)) < MinNameLength;
    var emailBad := !MatchesEmailPattern(Trim(f.email));
    var messageBad := f.message == "" || Utf16Length(Trim(f.message)) < MinMessageLength;
    Validation(!nameBad && !emailBad && !messageBad,
               BooleanString(nameBad), BooleanString(emailBad), BooleanString(messageBad))
  }

  /** The address `a@b.co` is unchanged by trimming and matches the pattern. */
  lemma SampleAddressMatches()
    ensures Trim("a@b.co") == "a@b.co" && MatchesEmailPattern("a@b.co")
  {
    var email := "a@b.co";
    TrimKeepsText(email);
    assert !IsWhitespace('a') && !IsWhitespace('b') && !IsWhitespace('c') && !IsWhitespace('o');
    assert PlainPart("a") && PlainPart("b") && PlainPart("co");
    assert email[..1] == "a" && email[2..3] == "b" && email[4..] == "co";
    assert MatchesAt(email, 1, 3);
  }

  /**
   * A name made of one emoji is two UTF-16 code units long, so it passes the
   * two-character minimum, and a well-formed form carrying it is valid.
   */
  lemma EmojiNameAccepted()
    ensures Validate(ContactFields("\U{1F600}", "a@b.co", "0123456789")).ok
  {
    var name, message := "\U{1F600}", "0123456789";
    TrimKeepsText(name);
    TrimKeepsText(message);
    SampleAddressMatches();
    assert Utf16Length(name) == 2;
    assert Utf16Length(message) == 10;
  }

  /** What the submit handler does with the form. */
  datatype Submission =
    | SpamDetected                                   // the honeypot was filled; nothing validated
    | NeedsCorrection(validation: Validation)        // validation failed; nothing sent
    | OpenMailApp(validation: Validation)            // no endpoint: a `mailto:` link is opened
    | Post(endpoint: string, validation: Validation) // the form is posted to the endpoint

  /** `(x?.value || "").trim() !== ""` for the hidden `website` input. */
  predicate HoneypotFilled(honeypot: Option<string>)
    ensures HoneypotFilled(honeypot) <==> honeypot.Some? && !AllWhitespace(honeypot.value)
  {
    honeypot.Some? && Trim(honeypot.value) != ""
  }

  /**
   * The submit handler up to the network call. `honeypot` is the hidden
   * `website` input's value (none when the input is missing) and `action`
   * the form's `action` attribute.
   */
  function Submit(honeypot: Option<string>, f: ContactFields, action: Option<string>): (s: Submission)
    ensures s.SpamDetected? <==> honeypot.Some? && !AllWhitespace(honeypot.value)
    ensures !s.SpamDetected? ==> s.validation == Validate(f)
    ensures s.NeedsCorrection? <==> !HoneypotFilled(honeypot) && !Validate(f).ok
    ensures (s.OpenMailApp? || s.Post?) <==> !HoneypotFilled(honeypot) && Validate(f).ok
    ensures s.Post? ==> action == Some(s.endpoint) && s.endpoint != ""
    ensures s.OpenMailApp? ==> action.None? || action.value == ""
  {
    if HoneypotFilled(honeypot) then SpamDetected
    else
      var v := Validate(f);
      if !v.ok then NeedsCorrection(v)
      else if action.None? || action.value == "" then OpenMailApp(v)
      else Post(action.value, v)
  }

  const SendingStatus := "Sending..."

  /**
   * The status line the handler leaves before any network reply arrives:
   * "Sending..." is written first and stays only when the form is posted.
   */
  function StatusText(s: Submission): (text: string)
    ensures text == SendingStatus <==> s.Post?
    ensures text != ""
  {
    match s
    case SpamDetected => "Spam detected."
    case NeedsCorrection(_) => "Please correct the highlighted fields."
    case OpenMailApp(_) => "Opening your email app..."
    case Post(_, _) => SendingStatus
  }

  /** The status line tells the four outcomes apart. */
  lemma StatusTextIdentifiesOutcome(a: Submission, b: Submission)
    ensures StatusText(a) == StatusText(b) <==>
              && a.SpamDetected? == b.SpamDetected?
              && a.NeedsCorrection? == b.NeedsCorrection?
              && a.OpenMailApp? == b.OpenMailApp?
  {
  }
}
