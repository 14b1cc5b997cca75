/**
 * The attribute-name value object (backend/src/domain/entities/AttributeName.ts).
 *
 * An `AttributeName` is immutable: being a datatype value, its `value` cannot
 * change after construction. The subset type `ValidAttributeName` is what the
 * private constructor plus the validating factory guarantee: only sanitised,
 * valid names exist.
 */
module Entities {
  import opened Wrappers
  import Rules = AttributeValidationRules

  datatype AttributeName = AttributeName(value: string) {
    /** `toLowerCase()`: ASCII letters folded to lower case. */
    function ToLowerCase(): string {
      LowerAscii(value)
    }

    /** `equals`: the two values agree ignoring letter case. */
    predicate Equals(other: AttributeName) {
      ToLowerCase() == other.ToLowerCase()
    }
  }

  /** The names the factory can produce: valid and already in sanitised form. */
  type ValidAttributeName = n: AttributeName | Rules.IsValidName(n.value) && Rules.SanitizeName(n.value) == n.value
    witness AttributeName("a")

  function LowerChar(c: char): char {
    if 'A' <= c <= 'Z' then (c as int - 'A' as int + 'a' as int) as char else c
  }

  function LowerAscii(s: string): string {
    seq(|s|, i requires 0 <= i < |s| => LowerChar(s[i]))
  }

  /**
   * `AttributeName.create`: validate, then sanitise. Fails with the message of the
   * first failed check; on success the value is the sanitised input and is itself
   * a valid, normalised name.
   */
  function Create(name: string): (r: Result<ValidAttributeName, string>)
    ensures r.Ok? <==> Rules.IsValidName(name)
    ensures r.Err? ==> Rules.GetValidationError(name).Some? && r.error == Rules.Message(Rules.GetValidationError(name).value)
    ensures Rules.IsBlank(name) ==> r == Err("Attribute name cannot be empty")
    ensures !Rules.IsBlank(name) && |name| > Rules.MaxNameLength ==>
      r == Err("Attribute name cannot exceed 100 characters")
    ensures r.Ok? ==> r.value.value == Rules.SanitizeName(name)
    ensures r.Ok? ==> 0 < |r.value.value| <= Rules.MaxNameLength
    ensures r.Ok? ==> Rules.NoEdgeWhitespace(r.value.value) && Rules.SingleSpaced(r.value.value)
  {
    Rules.IsValidIffNoError(name);
    match Rules.GetValidationError(name)
    case Some(e) => Err(Rules.Message(e))
    case None =>
      Rules.SanitizedValidNameIsValid(name);
      Rules.SanitizeIdempotent(name);
      Rules.SanitizeNormalForm(name);
      Ok(AttributeName(Rules.SanitizeName(name)))
  }

  // ---------------------------------------------------------------------------
  // Lemmas

  /** `equals` is an equivalence relation. */
  lemma EqualsIsEquivalence(a: AttributeName, b: AttributeName, c: AttributeName)
    ensures a.Equals(a)
    ensures a.Equals(b) <==> b.Equals(a)
    ensures a.Equals(b) && b.Equals(c) ==> a.Equals(c)
  {
  }

  /** Names differing only in the case of ASCII letters are equal. */
  lemma {:induction false} EqualsIgnoresCase(a: AttributeName, b: AttributeName)
    requires |a.value| == |b.value|
    requires forall i :: 0 <= i < |a.value| ==> LowerChar(a.value[i]) == LowerChar(b.value[i])
    ensures a.Equals(b)
  {
    assert a.ToLowerCase() == b.ToLowerCase();
  }

  /** A name of 1 to 100 characters with no whitespace and no forbidden character is created unchanged. */
  lemma CreateKeepsPlainName(s: string)
    requires 0 < |s| <= Rules.MaxNameLength
    requires forall i :: 0 <= i < |s| ==> !Rules.IsWhitespace(s[i]) && !Rules.IsForbidden(s[i])
    ensures Create(s) == Ok(AttributeName(s))
  {
    assert !Rules.IsWhitespace(s[0]) && !Rules.IsWhitespace(s[|s| - 1]);
    assert Rules.SingleSpaced(s);
    Rules.TrimFixpoint(s);
    Rules.CollapseFixpoint(s);
    assert Rules.SanitizeName(s) == s;
    assert Rules.GetValidationError(s) == None;
  }

  predicate IsAsciiLetter(c: char) {
    'a' <= c <= 'z' || 'A' <= c <= 'Z'
  }

  lemma LettersArePlain(s: string)
    requires forall i :: 0 <= i < |s| ==> IsAsciiLetter(s[i])
    ensures forall i :: 0 <= i < |s| ==> !Rules.IsWhitespace(s[i]) && !Rules.IsForbidden(s[i])
  {
  }

  /** "Color" is created unchanged. */
  lemma CreateColor()
    ensures Create("Color") == Ok(AttributeName("Color"))
  {
    var name := "Color";
    assert forall i :: 0 <= i < |name| ==> IsAsciiLetter(name[i]);
    LettersArePlain(name);
    CreateKeepsPlainName(name);
  }

  /** "color" is created unchanged. */
  lemma CreateLowerCaseColor()
    ensures Create("color") == Ok(AttributeName("color"))
  {
    var name := "color";
    assert forall i :: 0 <= i < |name| ==> IsAsciiLetter(name[i]);
    LettersArePlain(name);
    CreateKeepsPlainName(name);
  }

  /** The example from the domain walkthrough: "Color" and "color" are both created and are equal. */
  lemma ColorEqualsLowerCaseColor()
    ensures Create("Color").Ok? && Create("color").Ok?
    ensures Create("Color").value.Equals(Create("color").value)
  {
    CreateColor();
    CreateLowerCaseColor();
    ColorFoldsToLowerCase();
  }

  lemma ColorFoldsToLowerCase()
    ensures AttributeName("Color").Equals(AttributeName("color"))
  {
    var u := "Color";
    assert LowerChar(u[0]) == 'c';
    assert LowerAscii(u) == "color";
  }
}
