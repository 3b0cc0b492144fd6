/** The password rules of the user-registration form, as pure functions:
    the character classes the rules test for, the error record that
    validation fills in, and the selection of the messages the form shows. */
module PasswordRules {

  /** Shortest and longest accepted password, in characters. */
  const MinLength: nat := 10
  const MaxLength: nat := 24

  /** The fixed messages, one per failing rule. */
  const TooShort: string := "Password must be at least 10 characters long"
  const TooLong: string := "Password must be at most 24 characters long"
  const NoNumber: string := "Password must contain at least one number"
  const NoUppercase: string := "Password must contain at least one uppercase letter"
  const NoLowercase: string := "Password must contain at least one lowercase letter"
  const HasSpaces: string := "Password cannot contain spaces"

  /** The error record: one slot per rule, "" when the rule passes.
      Both length rules share the `length` slot. */
  datatype PasswordErrors = PasswordErrors(
    length: string,
    number: string,
    uppercase: string,
    lowercase: string,
    spaces: string)

  /** The record with every slot empty: the form's initial state and the
      state it is reset to once a password is accepted. */
  const NoErrors: PasswordErrors := PasswordErrors("", "", "", "", "")

  /** The four character classes the rules look for: the ASCII ranges of the
      regular expressions /\d/, /[A-Z]/ and /[a-z]/, and the single character
      U+0020 that `includes(" ")` searches for (no other whitespace). */
  datatype CharClass = Digit | Upper | Lower | Space

  predicate InClass(c: char, k: CharClass) {
    match k
    case Digit => '0' <= c <= '9'
    case Upper => 'A' <= c <= 'Z'
    case Lower => 'a' <= c <= 'z'
    case Space => c == ' '
  }

  /** Whether some character of `s` belongs to class `k`: the truth value of
      `s.match(re)` for the three regular expressions and of `s.includes(" ")`. */
  function Contains(s: string, k: CharClass): (b: bool)
    ensures b <==> exists i :: 0 <= i < |s| && InClass(s[i], k)
  {
    if s == [] then false
    else if InClass(s[0], k) then true
    else
      var b := Contains(s[1..], k);
      assert forall i :: 1 <= i < |s| ==> s[i] == s[1..][i - 1];
      b
  }

  /** A class is found in a concatenation iff it is found in one of the parts. */
  lemma {:induction false} ContainsConcat(s: string, t: string, k: CharClass)
    ensures Contains(s + t, k) <==> Contains(s, k) || Contains(t, k)
  {
    var st := s + t;
    if Contains(s, k) {
      var i :| 0 <= i < |s| && InClass(s[i], k);
      assert InClass(st[i], k);
    }
    if Contains(t, k) {
      var j :| 0 <= j < |t| && InClass(t[j], k);
      assert InClass(st[|s| + j], k);
    }
    if Contains(st, k) {
      var i :| 0 <= i < |st| && InClass(st[i], k);
      if i < |s| {
        assert InClass(s[i], k);
      } else {
        assert InClass(t[i - |s|], k);
      }
    }
  }

  /** The `length` slot: written by the "at least" rule and by the "at
      most" rule. The two conditions exclude each other, so at most one of
      the two messages applies. */
  function LengthMessage(password: string): (m: string)
    ensures m == TooShort <==> |password| < MinLength
    ensures m == TooLong <==> |password| > MaxLength
    ensures m == "" <==> MinLength <= |password| <= MaxLength
  {
    MessagesDistinct();
    if |password| < MinLength then TooShort
    else if |password| > MaxLength then TooLong
    else ""
  }

  /** The `number` slot: set iff no character is an ASCII digit. */
  function NumberMessage(password: string): (m: string)
    ensures m == "" || m == NoNumber
    ensures m != "" <==> forall i :: 0 <= i < |password| ==> !('0' <= password[i] <= '9')
  {
    if Contains(password, Digit) then "" else NoNumber
  }

  /** The `uppercase` slot: set iff no character is in 'A'..'Z'. */
  function UppercaseMessage(password: string): (m: string)
    ensures m == "" || m == NoUppercase
    ensures m != "" <==> forall i :: 0 <= i < |password| ==> !('A' <= password[i] <= 'Z')
  {
    if Contains(password, Upper) then "" else NoUppercase
  }

  /** The `lowercase` slot: set iff no character is in 'a'..'z'. */
  function LowercaseMessage(password: string): (m: string)
    ensures m == "" || m == NoLowercase
    ensures m != "" <==> forall i :: 0 <= i < |password| ==> !('a' <= password[i] <= 'z')
  {
    if Contains(password, Lower) then "" else NoLowercase
  }

  /** The `spaces` slot: set iff some character is U+0020; tabs, newlines
      and other whitespace do not set it. */
  function SpacesMessage(password: string): (m: string)
    ensures m == "" || m == HasSpaces
    ensures m != "" <==> exists i :: 0 <= i < |password| && password[i] == ' '
  {
    MessagesDistinct();
    if Contains(password, Space) then HasSpaces else ""
  }

  /** The error record handleSubmit builds for `password`: every rule is
      evaluated, none short-circuits another, and the username plays no
      part. The record is all-empty exactly when the password meets every
      rule as stated over its characters. */
  function Validate(password: string): (e: PasswordErrors)
    ensures WellFormed(e)
    ensures e == NoErrors <==> Acceptable(password)
  {
    PasswordErrors(
      LengthMessage(password),
      NumberMessage(password),
      UppercaseMessage(password),
      LowercaseMessage(password),
      SpacesMessage(password))
  }

  /** Each slot holds "" or one of its own rule's messages. */
  predicate WellFormed(e: PasswordErrors) {
    && (e.length == "" || e.length == TooShort || e.length == TooLong)
    && (e.number == "" || e.number == NoNumber)
    && (e.uppercase == "" || e.uppercase == NoUppercase)
    && (e.lowercase == "" || e.lowercase == NoLowercase)
    && (e.spaces == "" || e.spaces == HasSpaces)
  }

  /** The rules stated directly over the characters of the password, as a
      reference for what "the password passes" means. */
  ghost predicate Acceptable(password: string) {
    && MinLength <= |password| <= MaxLength
    && (exists i :: 0 <= i < |password| && '0' <= password[i] <= '9')
    && (exists i :: 0 <= i < |password| && 'A' <= password[i] <= 'Z')
    && (exists i :: 0 <= i < |password| && 'a' <= password[i] <= 'z')
    && (forall i :: 0 <= i < |password| ==> password[i] != ' ')
  }

  /** `Object.values(errors).some((error) => error !== "")`. */
  function AnyError(e: PasswordErrors): (b: bool)
    ensures b <==> e != NoErrors
  {
    e.length != "" || e.number != "" || e.uppercase != "" || e.lowercase != "" || e.spaces != ""
  }

  /** The slots in the order the record declares them, which is the order
      `Object.values` and `Object.entries` list them in. */
  function Slots(e: PasswordErrors): (s: seq<string>)
    ensures |s| == 5
    ensures s[0] == e.length && s[1] == e.number && s[2] == e.uppercase
    ensures s[3] == e.lowercase && s[4] == e.spaces
  {
    [e.length, e.number, e.uppercase, e.lowercase, e.spaces]
  }

  /** Whether `r` is `s` with some elements dropped and the rest in order. */
  ghost predicate IsSubsequence(r: seq<string>, s: seq<string>)
    decreases |s|
  {
    r == [] || (s != [] && ((r[0] == s[0] && IsSubsequence(r[1..], s[1..])) || IsSubsequence(r, s[1..])))
  }

  /** The entries the list renders: `error ? <li>{error}</li> : null` keeps
      exactly the non-empty strings, in order. */
  function Visible(s: seq<string>): (r: seq<string>)
    ensures |r| <= |s|
    ensures forall i :: 0 <= i < |r| ==> r[i] != ""
  {
    if s == [] then []
    else if s[0] == "" then Visible(s[1..])
    else [s[0]] + Visible(s[1..])
  }

  /** The selection keeps non-empty entries only, in their original order. */
  lemma {:induction false} VisibleOrder(s: seq<string>)
    ensures IsSubsequence(Visible(s), s)
    ensures forall i :: 0 <= i < |Visible(s)| ==> Visible(s)[i] != ""
  {
    if s != [] {
      VisibleOrder(s[1..]);
    }
  }

  /** It keeps as many entries as there are non-empty ones, which together
      with VisibleOrder determines the result uniquely. */
  lemma {:induction false} VisibleCount(s: seq<string>)
    ensures |Visible(s)| == |s| - multiset(s)[""]
  {
    if s != [] {
      VisibleCount(s[1..]);
      assert s == [s[0]] + s[1..];
    }
  }

  /** It keeps every non-empty entry and nothing else, so it is empty
      exactly when every entry is. */
  lemma {:induction false} VisibleMembers(s: seq<string>)
    ensures forall m :: m in Visible(s) <==> m != "" && m in s
    ensures Visible(s) == [] <==> forall m :: m in s ==> m == ""
  {
    if s != [] {
      VisibleMembers(s[1..]);
      assert forall i :: 1 <= i < |s| ==> s[i] == s[1..][i - 1];
      assert forall m :: m in s <==> m == s[0] || m in s[1..];
    }
    if Visible(s) != [] {
      assert Visible(s)[0] in Visible(s);
    }
  }

  /** The messages the form displays for a stored error record, in slot order. */
  function Messages(e: PasswordErrors): (r: seq<string>)
    ensures r == [] <==> !AnyError(e)
    ensures forall m :: m in r <==> m != "" && m in Slots(e)
  {
    VisibleMembers(Slots(e));
    assert forall m :: m in Slots(e) <==> m == e.length || m == e.number || m == e.uppercase || m == e.lowercase || m == e.spaces;
    assert e.length in Slots(e) && e.number in Slots(e) && e.uppercase in Slots(e);
    assert e.lowercase in Slots(e) && e.spaces in Slots(e);
    Visible(Slots(e))
  }

  /** A password yields an all-empty record, and so an empty list and an
      accepted submission, exactly when it satisfies every rule. */
  lemma AcceptedIff(password: string)
    ensures !AnyError(Validate(password)) <==> Acceptable(password)
    ensures Messages(Validate(password)) == [] <==> Acceptable(password)
  {
  }

  /** Which length message is displayed after validating `password`. */
  lemma LengthMessagesShown(password: string)
    ensures TooShort in Messages(Validate(password)) <==> |password| < MinLength
    ensures TooLong in Messages(Validate(password)) <==> |password| > MaxLength
  {
    ShownIff(Validate(password));
  }

  /** Which character-class messages are displayed after validating `password`. */
  lemma ClassMessagesShown(password: string)
    ensures NoNumber in Messages(Validate(password)) <==> !Contains(password, Digit)
    ensures NoUppercase in Messages(Validate(password)) <==> !Contains(password, Upper)
    ensures NoLowercase in Messages(Validate(password)) <==> !Contains(password, Lower)
    ensures HasSpaces in Messages(Validate(password)) <==> Contains(password, Space)
  {
    ShownIff(Validate(password));
  }

  /** In a well-formed record, a message is displayed exactly when its slot
      holds it. */
  lemma ShownIff(e: PasswordErrors)
    requires WellFormed(e)
    ensures TooShort in Messages(e) <==> e.length == TooShort
    ensures TooLong in Messages(e) <==> e.length == TooLong
    ensures NoNumber in Messages(e) <==> e.number != ""
    ensures NoUppercase in Messages(e) <==> e.uppercase != ""
    ensures NoLowercase in Messages(e) <==> e.lowercase != ""
    ensures HasSpaces in Messages(e) <==> e.spaces != ""
  {
    MessagesDistinct();
    var s := Slots(e);
    assert TooShort in s <==> e.length == TooShort;
    assert TooLong in s <==> e.length == TooLong;
    assert NoNumber in s <==> e.number != "";
    assert NoUppercase in s <==> e.uppercase != "";
    assert NoLowercase in s <==> e.lowercase != "";
    assert HasSpaces in s <==> e.spaces != "";
  }

  /** The six messages are non-empty and pairwise different, so a message in
      the list identifies the rule that failed. */
  lemma MessagesDistinct()
    ensures TooShort != "" && TooLong != "" && NoNumber != "" && NoUppercase != "" && NoLowercase != "" && HasSpaces != ""
    ensures TooShort != TooLong && TooShort != NoNumber && TooShort != NoUppercase && TooShort != NoLowercase && TooShort != HasSpaces
    ensures TooLong != NoNumber && TooLong != NoUppercase && TooLong != NoLowercase && TooLong != HasSpaces
    ensures NoNumber != NoUppercase && NoNumber != NoLowercase && NoNumber != HasSpaces
    ensures NoUppercase != NoLowercase && NoUppercase != HasSpaces && NoLowercase != HasSpaces
  {
    assert |TooShort| == 44 && |TooLong| == 43 && |NoNumber| == 41;
    assert |NoUppercase| == 51 && |NoLowercase| == 51 && |HasSpaces| == 30;
    assert NoUppercase[35] == 'u' != NoLowercase[35];
  }

  /** What one slot contributes to the displayed list. */
  function Shown(m: string): (r: seq<string>)
    ensures r == [] <==> m == ""
    ensures r != [] ==> r == [m]
  {
    if m != "" then [m] else []
  }

  /** The displayed list written out: each slot contributes its message
      when it holds one, in the order length, number, uppercase, lowercase,
      spaces. */
  lemma MessagesInSlotOrder(e: PasswordErrors)
    ensures Messages(e) ==
      Shown(e.length) + Shown(e.number) + Shown(e.uppercase) + Shown(e.lowercase) + Shown(e.spaces)
  {
    VisibleOfFive(e.length, e.number, e.uppercase, e.lowercase, e.spaces);
  }

  /** The selection over five entries, one step at a time. */
  lemma VisibleOfFive(a: string, b: string, c: string, d: string, f: string)
    ensures Visible([a, b, c, d, f]) == Shown(a) + Shown(b) + Shown(c) + Shown(d) + Shown(f)
  {
    var s := [a, b, c, d, f];
    VisibleSuffix(s, 4);
    VisibleSuffix(s, 3);
    VisibleSuffix(s, 2);
    VisibleSuffix(s, 1);
    VisibleSuffix(s, 0);
    assert s[5..] == [];
    assert s[0..] == s;
    Associate5(Shown(a), Shown(b), Shown(c), Shown(d), Shown(f));
  }

  /** One step of the selection on a suffix: the entry at `i` is kept iff
      it is non-empty. */
  lemma VisibleSuffix(s: seq<string>, i: nat)
    requires i < |s|
    ensures Visible(s[i..]) == Shown(s[i]) + Visible(s[i + 1..])
  {
    assert s[i..][1..] == s[i + 1..];
  }

  /** Regrouping the five contributions of MessagesInSlotOrder. */
  lemma Associate5(a: seq<string>, b: seq<string>, c: seq<string>, d: seq<string>, f: seq<string>)
    ensures a + (b + (c + (d + (f + [])))) == a + b + c + d + f
  {
    assert f + [] == f;
  }

  /** The rules are independent: every well-formed record, that is every
      combination of failing and passing rules, is produced by some password.
      Together with `WellFormed(Validate(p))` this says the records validation
      can produce are exactly the well-formed ones. */
  lemma {:induction false} RulesIndependent(e: PasswordErrors)
    requires WellFormed(e)
    ensures exists password :: Validate(password) == e
  {
    var password := Sample(e);
    SampleLength(e);
    SampleClass(e, Digit);
    SampleClass(e, Upper);
    SampleClass(e, Lower);
    SampleClass(e, Space);
    CoreClass(e, Digit);
    CoreClass(e, Upper);
    CoreClass(e, Lower);
    CoreClass(e, Space);
    assert Validate(password) == e;
  }

  /** The letters the witness password is built from: one character for each
      class the record says is present, no padding yet. */
  function SampleCore(e: PasswordErrors): (s: string)
    ensures |s| <= 4
  {
    Piece('1', e.number == "") + Piece('A', e.uppercase == "") +
    Piece('a', e.lowercase == "") + Piece(' ', e.spaces != "")
  }

  /** A witness password for record `e`: the core padded with '-' (which is
      in no class) to a length the `length` slot calls for. */
  function Sample(e: PasswordErrors): string {
    var core := SampleCore(e);
    var n := if e.length == TooShort then 0
             else if e.length == "" then MinLength - |core|
             else MaxLength + 1 - |core|;
    core + seq(n, _ => '-')
  }

  /** The witness has the length the `length` slot asks for. */
  lemma SampleLength(e: PasswordErrors)
    requires WellFormed(e)
    ensures LengthMessage(Sample(e)) == e.length
  {
    MessagesDistinct();
  }

  /** The padding adds no class, so the witness has a class exactly when
      its core has one. */
  lemma SampleClass(e: PasswordErrors, k: CharClass)
    ensures Contains(Sample(e), k) <==> Contains(SampleCore(e), k)
  {
    var core := SampleCore(e);
    var pad := Sample(e)[|core|..];
    assert Sample(e) == core + pad;
    assert forall i :: 0 <= i < |pad| ==> pad[i] == '-';
    ContainsConcat(core, pad, k);
  }

  /** The core has a class exactly when one of its pieces was put in for it. */
  lemma CoreClass(e: PasswordErrors, k: CharClass)
    ensures Contains(SampleCore(e), k) <==>
      || (e.number == "" && InClass('1', k)) || (e.uppercase == "" && InClass('A', k))
      || (e.lowercase == "" && InClass('a', k)) || (e.spaces != "" && InClass(' ', k))
  {
    var digit, upper, lower, space := Piece('1', e.number == ""), Piece('A', e.uppercase == ""),
                                      Piece('a', e.lowercase == ""), Piece(' ', e.spaces != "");
    ContainsConcat(digit + upper + lower, space, k);
    ContainsConcat(digit + upper, lower, k);
    ContainsConcat(digit, upper, k);
  }

  /** A one-character password fragment, present or not. */
  function Piece(c: char, present: bool): (s: string)
    ensures |s| <= 1
    ensures forall k :: Contains(s, k) <==> present && InClass(c, k)
  {
    if present then [c] else []
  }

  /** The empty password fails four rules at once; the spaces rule passes. */
  lemma EmptyPasswordExample()
    ensures Validate("") == PasswordErrors(TooShort, NoNumber, NoUppercase, NoLowercase, "")
    ensures Messages(Validate("")) == [TooShort, NoNumber, NoUppercase, NoLowercase]
  {
    MessagesDistinct();
    MessagesInSlotOrder(Validate(""));
  }

  /** "Abcdefg123" passes every rule. */
  lemma AcceptedExample()
    ensures Validate("Abcdefg123") == NoErrors
  {
    var p := "Abcdefg123";
    assert forall i :: 0 <= i < |p| ==> !InClass(p[i], Space);
    assert InClass(p[0], Upper) && InClass(p[1], Lower) && InClass(p[7], Digit);
  }

  /** A tab is not a space: only U+0020 trips the spaces rule. */
  lemma TabIsAllowed()
    ensures Validate("Abcdefg\t123") == NoErrors
  {
    var p := "Abcdefg\t123";
    assert forall i :: 0 <= i < |p| ==> !InClass(p[i], Space);
    assert InClass(p[0], Upper) && InClass(p[1], Lower) && InClass(p[8], Digit);
  }

  /** The same password with a space fails the spaces rule alone. */
  lemma SpaceIsRejected()
    ensures Validate("Abcdefg 123") == PasswordErrors("", "", "", "", HasSpaces)
  {
    var p := "Abcdefg 123";
    assert InClass(p[0], Upper) && InClass(p[1], Lower) && InClass(p[8], Digit) && InClass(p[7], Space);
  }
}
