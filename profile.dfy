/**
 * The profile screen: the check that enables the submit button, and the
 * message shown when the update request fails.
 */
module Profile {

  // ---------------------------------------------------------------------
  // Form validation
  // ---------------------------------------------------------------------

  /** The character class `[a-zA-Z0-9]`. */
  predicate IsAsciiAlnum(c: char) {
    'a' <= c <= 'z' || 'A' <= c <= 'Z' || '0' <= c <= '9'
  }

  /**
   * JavaScript's `length`: UTF-16 code units, so a character outside the
   * Basic Multilingual Plane counts twice.
   */
  function Utf16Length(s: string): (n: nat)
    ensures |s| <= n <= 2 * |s|
  {
    if s == [] then 0 else (if s[0] as int > 0xFFFF then 2 else 1) + Utf16Length(s[1..])
  }

  /** The regular expression `/^[a-zA-Z0-9]+$/`: one class character, then the rest of the match. */
  predicate MatchesAlnumPlus(s: string) {
    s != [] && IsAsciiAlnum(s[0]) && (|s| == 1 || MatchesAlnumPlus(s[1..]))
  }

  lemma {:induction false} MatchesAlnumPlusAll(s: string)
    ensures MatchesAlnumPlus(s) <==> s != [] && forall i :: 0 <= i < |s| ==> IsAsciiAlnum(s[i])
    decreases |s|
  {
    if |s| > 1 {
      MatchesAlnumPlusAll(s[1..]);
      assert forall i :: 1 <= i < |s| ==> s[i] == s[1..][i - 1];
    }
  }

  /** A string of ASCII letters and digits has one code unit per character. */
  lemma {:induction false} AsciiLength(s: string)
    ensures (forall i :: 0 <= i < |s| ==> IsAsciiAlnum(s[i])) ==> Utf16Length(s) == |s|
    decreases |s|
  {
    if s != [] {
      AsciiLength(s[1..]);
      assert forall i :: 1 <= i < |s| ==> s[i] == s[1..][i - 1];
    }
  }

  /**
   * `isFormValid`: the username has at least five characters, all ASCII
   * letters or digits, and the nickname at least four code units.
   */
  function IsFormValid(username: string, nickname: string): (valid: bool)
    ensures valid <==>
      && |username| >= 5
      && (forall i :: 0 <= i < |username| ==> IsAsciiAlnum(username[i]))
      && Utf16Length(nickname) >= 4
  {
    MatchesAlnumPlusAll(username);
    AsciiLength(username);
    Utf16Length(username) >= 5 && MatchesAlnumPlus(username) && Utf16Length(nickname) >= 4
  }

  /** The submit button's `disabled` attribute. */
  function SubmitDisabled(username: string, nickname: string): (disabled: bool)
    ensures disabled <==> !IsFormValid(username, nickname)
    ensures |username| < 5 || Utf16Length(nickname) < 4 ==> disabled
  {
    !IsFormValid(username, nickname)
  }

  /** A space, an underscore or any non-ASCII character in the username rejects the form, whatever the lengths. */
  lemma ForeignCharacterInvalid(username: string, nickname: string, i: nat)
    requires i < |username| && !IsAsciiAlnum(username[i])
    ensures !IsFormValid(username, nickname)
  {
  }

  /** An empty username, or a nickname of at most three code units, is never valid. */
  lemma ShortInputsInvalid(username: string, nickname: string)
    requires username == [] || Utf16Length(nickname) <= 3
    ensures !IsFormValid(username, nickname)
  {
  }

  /**
   * Only the nickname's length matters: with at least four characters its
   * content never decides, and the form is valid exactly when the username is.
   */
  lemma NicknameContentIrrelevant(username: string, nickname: string, other: string)
    requires |nickname| >= 4 && |other| >= 4
    ensures IsFormValid(username, nickname) == IsFormValid(username, other)
    ensures IsFormValid(username, nickname) <==> |username| >= 5 && MatchesAlnumPlus(username)
  {
    MatchesAlnumPlusAll(username);
  }

  // ---------------------------------------------------------------------
  // Failed updates
  // ---------------------------------------------------------------------

  /** `message.includes(part)`. */
  predicate Contains(message: string, part: string)
    decreases |message|
  {
    |part| <= |message| && (message[..|part|] == part || Contains(message[1..], part))
  }

  /** A part that occurs at index i is contained. */
  lemma {:induction false} ContainsAt(message: string, part: string, i: nat)
    requires i + |part| <= |message| && message[i..i + |part|] == part
    ensures Contains(message, part)
    decreases i
  {
    if i > 0 {
      assert message[1..][i - 1..i - 1 + |part|] == part;
      ContainsAt(message[1..], part, i - 1);
    }
  }

  /** A contained part occurs at some index. */
  lemma {:induction false} ContainsSomewhere(message: string, part: string) returns (i: nat)
    requires Contains(message, part)
    ensures i + |part| <= |message| && message[i..i + |part|] == part
    decreases |message|
  {
    if message[..|part|] == part {
      i := 0;
    } else {
      var j := ContainsSomewhere(message[1..], part);
      assert message[1..][j..j + |part|] == message[j + 1..j + 1 + |part|];
      i := j + 1;
    }
  }

  /** A message without the first character of part does not contain it. */
  lemma {:induction false} NoFirstCharacter(message: string, part: string)
    requires part != [] && forall k :: 0 <= k < |message| ==> message[k] != part[0]
    ensures !Contains(message, part)
    decreases |message|
  {
    if |part| <= |message| {
      assert message[..|part|][0] != part[0];
      NoFirstCharacter(message[1..], part);
    }
  }

  const TAKEN: string := "The username is already taken."
  const FAILED: string := "Failed to update profile."

  /** The outcome of the update request: it resolves, or it rejects with an error message. */
  datatype UpdateResult = Resolved | Rejected(message: string)

  /** What the screen does: go back to the select screen, or show an error text. */
  datatype Outcome = NavigateToSelect | ShowError(text: string)

  /**
   * `updateProfile` for a response with the given HTTP status: a 2xx status
   * resolves, 409 rejects with "409 Conflict", any other status with a
   * generic message.
   */
  function UpdateProfile(status: int): (r: UpdateResult)
    ensures r.Resolved? <==> 200 <= status < 300
    ensures r.Rejected? ==> (Contains(r.message, "409") <==> status == 409)
  {
    ContainsAt("409 Conflict", "409", 0);
    NoFirstCharacter("Failed to update profile", "409");
    if 200 <= status < 300 then Resolved
    else if status == 409 then Rejected("409 Conflict")
    else Rejected("Failed to update profile")
  }

  /** `handleUpdateProfile` after the request settles: the taken-name text exactly when the message mentions 409. */
  function HandleUpdateProfile(result: UpdateResult): (o: Outcome)
    ensures o.NavigateToSelect? <==> result.Resolved?
    ensures result.Rejected? ==> o == ShowError(if Contains(result.message, "409") then TAKEN else FAILED)
    ensures o.ShowError? ==> o.text == TAKEN || o.text == FAILED
  {
    match result
    case Resolved => NavigateToSelect
    case Rejected(message) => ShowError(if Contains(message, "409") then TAKEN else FAILED)
  }

  /** From HTTP status to what the user sees: a 409 conflict and no other failure says the name is taken. */
  lemma StatusToOutcome(status: int)
    ensures HandleUpdateProfile(UpdateProfile(status))
         == if 200 <= status < 300 then NavigateToSelect
            else if status == 409 then ShowError(TAKEN)
            else ShowError(FAILED)
  {
  }
}
