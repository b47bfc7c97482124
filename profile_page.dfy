/** The profile form's validators: the name and e-mail checks, form validity, and the submit
    guard. */
module ProfilePage {
  import opened Wrappers
  import opened Text

  predicate IsAsciiLetter(c: char) {
    'a' <= c <= 'z' || 'A' <= c <= 'Z'
  }

  /** `/^[a-zA-Z\s]{2,}$/.test(name.trim())`: at least two characters once trimmed, each an
      ASCII letter or white space. */
  function IsNameValid(name: string): (ok: bool)
    ensures ok ==> |Trim(name)| >= 2
    ensures ok <==> |Trim(name)| >= 2 && forall c :: c in Trim(name) ==> IsAsciiLetter(c) || IsWhitespace(c)
  {
    var t := Trim(name);
    |t| >= 2 && forall i :: 0 <= i < |t| ==> IsAsciiLetter(t[i]) || IsWhitespace(t[i])
  }

  /** A valid name, trimmed, begins and ends with a letter, and so holds at least two letters. */
  lemma ValidNameIsFramedByLetters(name: string)
    requires IsNameValid(name)
    ensures var t := Trim(name); IsAsciiLetter(t[0]) && IsAsciiLetter(t[|t| - 1])
  {
    var t := Trim(name);
    assert t[0] in t && t[|t| - 1] in t;
  }

  /** Surrounding white space never changes the verdict on a name. */
  lemma NameValidityIgnoresPadding(name: string)
    ensures IsNameValid(Trim(name)) == IsNameValid(name)
  {
    TrimIdempotent(name);
  }

  /** One part of an address: not empty, no white space, no `@`. */
  predicate IsAddressPart(s: string) {
    |s| > 0 && forall c :: c in s ==> IsAddressChar(c)
  }

  predicate IsAddressChar(c: char) {
    !IsWhitespace(c) && c != '@'
  }

  /** The shape `/^[^\s@]+@[^\s@]+\.[^\s@]+$/` accepts: local part, `@`, domain, `.`, last label,
      each of the three an address part. */
  ghost predicate EmailShape(t: string) {
    exists i, j :: 0 < i && i + 1 < j && j + 1 < |t| && t[i] == '@' && t[j] == '.'
      && IsAddressPart(t[..i]) && IsAddressPart(t[i + 1..j]) && IsAddressPart(t[j + 1..])
  }

  /** The position of the first `c` in `s`. */
  function IndexOf(s: string, c: char): (r: Option<nat>)
    ensures r.None? <==> c !in s
    ensures r.Some? ==> r.value < |s| && s[r.value] == c && c !in s[..r.value]
  {
    if s == [] then None
    else if s[0] == c then Some(0)
    else
      var r := IndexOf(s[1..], c);
      if r.Some? then
        assert s[..r.value + 1] == [s[0]] + s[1..][..r.value];
        Some(r.value + 1)
      else None
  }

  /** The regular expression's check on an already trimmed address, read left to right: a
      non-empty part before the first `@`, and after it a part without white space or `@` that
      has a `.` neither at its start nor at its end. */
  function MatchesEmail(t: string): (ok: bool)
  {
    var at := IndexOf(t, '@');
    && at.Some?
    && 0 < at.value
    && at.value + 3 <= |t|
    && IsAddressPart(t[..at.value])
    && IsAddressPart(t[at.value + 1..])
    && '.' in t[at.value + 2..|t| - 1]
  }

  /** `isEmailValid`: the check on the trimmed input. */
  function IsEmailValid(email: string): (ok: bool)
    ensures ok <==> EmailShape(Trim(email))
  {
    var t := Trim(email);
    MatchesIffShape(t);
    MatchesEmail(t)
  }

  /** The left-to-right check accepts exactly the strings of the regular expression's shape. */
  lemma MatchesIffShape(t: string)
    ensures MatchesEmail(t) <==> EmailShape(t)
  {
    if MatchesEmail(t) {
      MatchedEmailHasShape(t);
    }
    if EmailShape(t) {
      ShapedEmailMatches(t);
    }
  }

  lemma {:induction false} MatchedEmailHasShape(t: string)
    requires MatchesEmail(t)
    ensures EmailShape(t)
  {
    var i := IndexOf(t, '@').value;
    var rest := t[i + 1..];
    var k :| 0 <= k < |t[i + 2..|t| - 1]| && t[i + 2..|t| - 1][k] == '.';
    var j := i + 2 + k;
    assert t[j] == '.';
    assert rest == t[i + 1..j] + t[j..];
    assert t[j..] == [t[j]] + t[j + 1..];
    assert IsAddressPart(t[i + 1..j]) && IsAddressPart(t[j + 1..]);
  }

  lemma {:induction false} ShapedEmailMatches(t: string)
    requires EmailShape(t)
    ensures MatchesEmail(t)
  {
    var i, j :| 0 < i && i + 1 < j && j + 1 < |t| && t[i] == '@' && t[j] == '.'
      && IsAddressPart(t[..i]) && IsAddressPart(t[i + 1..j]) && IsAddressPart(t[j + 1..]);
    assert '@' !in t[..i];
    FirstAt(t, i);
    DomainIsAddressPart(t, i, j);
    DotInsideDomain(t, i, j);
  }

  /** The domain and the last label, with the dot between them, make one address part. */
  lemma DomainIsAddressPart(t: string, i: nat, j: nat)
    requires i + 1 < j < |t| && t[j] == '.'
    requires IsAddressPart(t[i + 1..j]) && IsAddressPart(t[j + 1..])
    ensures IsAddressPart(t[i + 1..])
  {
    assert t[j..] == ['.'] + t[j + 1..];
    assert t[i + 1..] == t[i + 1..j] + t[j..];
    JoinAddressParts(t[i + 1..j], t[j + 1..]);
  }

  /** A dot strictly inside the part after the `@`, neither first nor last. */
  lemma DotInsideDomain(t: string, i: nat, j: nat)
    requires i + 1 < j && j + 1 < |t| && t[j] == '.'
    ensures '.' in t[i + 2..|t| - 1]
  {
    assert t[i + 2..|t| - 1][j - i - 2] == '.';
  }

  /** An `@` with no `@` before it is the first one. */
  lemma FirstAt(t: string, i: nat)
    requires i < |t| && t[i] == '@' && '@' !in t[..i]
    ensures IndexOf(t, '@') == Some(i)
  {
  }

  /** Two address parts joined by a dot make one address part. */
  lemma JoinAddressParts(x: string, y: string)
    requires IsAddressPart(x) && IsAddressPart(y)
    ensures IsAddressPart(x + ['.'] + y)
  {
  }

  /** Form validity: both fields valid. */
  function IsFormValid(name: string, email: string): (ok: bool)
    ensures ok <==> IsNameValid(name) && EmailShape(Trim(email))
  {
    IsNameValid(name) && IsEmailValid(email)
  }

  /** The profile update the form sends: the fields as typed, untrimmed. */
  datatype ProfileUpdate = ProfileUpdate(name: string, email: string)

  /** The submit handler: sends the update only for a valid form. */
  function Submit(name: string, email: string): (request: Option<ProfileUpdate>)
    ensures request.Some? <==> IsNameValid(name) && EmailShape(Trim(email))
    ensures request.Some? ==> request.value == ProfileUpdate(name, email)
  {
    if IsFormValid(name, email) then Some(ProfileUpdate(name, email)) else None
  }
}
