/**
 * Validation and normalisation rules for attribute names
 * (backend/src/domain/rules/AttributeValidationRules.ts).
 *
 * Strings are sequences of characters. Whitespace is the set of characters
 * that JavaScript's `String.prototype.trim` removes and that the regular
 * expression class `\s` matches; it is written out in `IsWhitespace`.
 */
module AttributeValidationRules {
  import opened Wrappers

  const MinNameLength: nat := 1
  const MaxNameLength: nat := 100
  const ForbiddenCharacters: seq<char> := ['<', '>', '&', '"', '\'']

  /** JavaScript whitespace and line terminators (ECMA-262 WhiteSpace and LineTerminator). */
  predicate IsWhitespace(c: char) {
    || c == ' ' || c == '\t' || c == '\n' || c == '\U{000B}' || c == '\U{000C}' || c == '\r'
    || c == '\U{00A0}' || c == '\U{1680}' || ('\U{2000}' <= c <= '\U{200A}')
    || c == '\U{2028}' || c == '\U{2029}' || c == '\U{202F}' || c == '\U{205F}'
    || c == '\U{3000}' || c == '\U{FEFF}'
  }

  predicate IsForbidden(c: char) {
    c in ForbiddenCharacters
  }

  /** Every character is whitespace (this includes the empty string). */
  predicate IsBlank(s: string) {
    forall i :: 0 <= i < |s| ==> IsWhitespace(s[i])
  }

  /** Neither the first nor the last character is whitespace. */
  predicate NoEdgeWhitespace(s: string) {
    s == [] || (!IsWhitespace(s[0]) && !IsWhitespace(s[|s| - 1]))
  }

  /** Every whitespace character is a plain space, and no two whitespace characters are adjacent. */
  predicate SingleSpaced(s: string) {
    forall i :: 0 <= i < |s| && IsWhitespace(s[i]) ==>
      s[i] == ' ' && (i + 1 < |s| ==> !IsWhitespace(s[i + 1]))
  }

  /** The number of whitespace characters `s` starts with. */
  function LeadingWhitespace(s: string): (n: nat)
    ensures n <= |s|
    ensures forall i :: 0 <= i < n ==> IsWhitespace(s[i])
    ensures n < |s| ==> !IsWhitespace(s[n])
  {
    if s != [] && IsWhitespace(s[0]) then 1 + LeadingWhitespace(s[1..]) else 0
  }

  /** The length of `s` once its trailing whitespace is dropped. */
  function TrimmedLength(s: string): (n: nat)
    ensures n <= |s|
    ensures forall i :: n <= i < |s| ==> IsWhitespace(s[i])
    ensures 0 < n ==> !IsWhitespace(s[n - 1])
  {
    if s != [] && IsWhitespace(s[|s| - 1]) then TrimmedLength(s[..|s| - 1]) else |s|
  }

  /** `trimStart()`: the suffix of `s` from its first non-whitespace character. */
  function TrimStart(s: string): string {
    s[LeadingWhitespace(s)..]
  }

  /** `trimEnd()`: the prefix of `s` up to its last non-whitespace character. */
  function TrimEnd(s: string): string {
    s[..TrimmedLength(s)]
  }

  /** JavaScript's `name.trim()`. */
  function Trim(s: string): string {
    TrimEnd(TrimStart(s))
  }

  /** `FORBIDDEN_CHARACTERS.some(char => name.includes(char))` */
  predicate ContainsForbiddenCharacters(name: string) {
    exists k :: 0 <= k < |ForbiddenCharacters| && ForbiddenCharacters[k] in name
  }

  /** `!name || name.trim().length < MIN_NAME_LENGTH` */
  predicate FailsEmptinessCheck(name: string) {
    name == [] || |Trim(name)| < MinNameLength
  }

  predicate IsValidName(name: string) {
    if FailsEmptinessCheck(name) then false
    else if |name| > MaxNameLength then false
    else !ContainsForbiddenCharacters(name)
  }

  datatype ValidationError = EmptyName | NameTooLong | ForbiddenCharactersFound

  /** The message `getValidationError` returns for each failed check. */
  function Message(e: ValidationError): string {
    match e
    case EmptyName => "Attribute name cannot be empty"
    case NameTooLong => "Attribute name cannot exceed 100 characters"
    case ForbiddenCharactersFound => "Attribute name contains forbidden characters: <, >, &, \", '"
  }

  /**
   * The first failed check, in the order emptiness, length, forbidden characters.
   * The contract states each error in terms of the characters of `name`.
   */
  function GetValidationError(name: string): (r: Option<ValidationError>)
    ensures r == Some(EmptyName) <==> IsBlank(name)
    ensures r == Some(NameTooLong) <==> !IsBlank(name) && |name| > MaxNameLength
    ensures r == Some(ForbiddenCharactersFound) <==>
      !IsBlank(name) && |name| <= MaxNameLength && exists i :: 0 <= i < |name| && IsForbidden(name[i])
    ensures r == None <==>
      !IsBlank(name) && |name| <= MaxNameLength && forall i :: 0 <= i < |name| ==> !IsForbidden(name[i])
  {
    TrimEmptyIffBlank(name);
    ForbiddenIffSomeCharForbidden(name);
    if FailsEmptinessCheck(name) then Some(EmptyName)
    else if |name| > MaxNameLength then Some(NameTooLong)
    else if ContainsForbiddenCharacters(name) then Some(ForbiddenCharactersFound)
    else None
  }

  /** `name.replace(/\s+/g, ' ')`: every maximal run of whitespace becomes one space. */
  function Collapse(s: string): string
  {
    if s == [] then []
    else if IsWhitespace(s[0]) && |s| > 1 && IsWhitespace(s[1]) then Collapse(s[1..])
    else if IsWhitespace(s[0]) then [' '] + Collapse(s[1..])
    else [s[0]] + Collapse(s[1..])
  }

  /** The non-whitespace characters of `s`, in their order. */
  function NonBlank(s: string): string {
    if s == [] then []
    else if IsWhitespace(s[0]) then NonBlank(s[1..])
    else [s[0]] + NonBlank(s[1..])
  }

  /** `sanitizeName`: trim, then collapse inner whitespace runs. */
  function SanitizeName(name: string): string {
    Collapse(Trim(name))
  }

  /** `Collapse` never lengthens, is empty only on empty input, and keeps whether each end is whitespace. */
  lemma {:induction false} CollapseEnds(s: string)
    ensures |Collapse(s)| <= |s|
    ensures Collapse(s) == [] <==> s == []
    ensures s != [] ==> (IsWhitespace(Collapse(s)[0]) <==> IsWhitespace(s[0]))
    ensures s != [] ==> (IsWhitespace(Collapse(s)[|Collapse(s)| - 1]) <==> IsWhitespace(s[|s| - 1]))
  {
    if s != [] {
      var rest := s[1..];
      CollapseEnds(rest);
      if rest != [] {
        assert rest[0] == s[1] && rest[|rest| - 1] == s[|s| - 1];
      }
    }
  }

  /** The output of `Collapse` has only single spaces as whitespace, never two in a row. */
  lemma {:induction false} CollapseSingleSpaced(s: string)
    ensures SingleSpaced(Collapse(s))
  {
    if s != [] {
      var rest := s[1..];
      CollapseSingleSpaced(rest);
      CollapseEnds(rest);
      if rest != [] {
        assert rest[0] == s[1];
      }
      if !(IsWhitespace(s[0]) && |s| > 1 && IsWhitespace(s[1])) {
        ConsSingleSpaced(if IsWhitespace(s[0]) then ' ' else s[0], Collapse(rest));
      }
    }
  }

  /** Every non-whitespace character `Collapse` outputs occurs in its input. */
  lemma {:induction false} CollapseOrigin(s: string)
    ensures forall i :: 0 <= i < |Collapse(s)| && !IsWhitespace(Collapse(s)[i]) ==> Collapse(s)[i] in s
  {
    if s != [] {
      var rest := s[1..];
      CollapseOrigin(rest);
      ConsKeepsOrigin(if IsWhitespace(s[0]) then ' ' else s[0], Collapse(rest), rest, s);
    }
  }

  /** Every non-whitespace character of `[c] + tail` occurs in `s`, given that those of `tail` occur in a suffix of `s`. */
  lemma ConsKeepsOrigin(c: char, tail: string, src: string, s: string)
    requires forall i :: 0 <= i < |tail| && !IsWhitespace(tail[i]) ==> tail[i] in src
    requires |src| <= |s| && src == s[|s| - |src|..]
    requires !IsWhitespace(c) ==> c in s
    ensures forall i :: 0 <= i < |[c] + tail| && !IsWhitespace(([c] + tail)[i]) ==> ([c] + tail)[i] in s
  {
    var out := [c] + tail;
    forall i | 0 <= i < |out| && !IsWhitespace(out[i])
      ensures out[i] in s
    {
      if i > 0 {
        assert out[i] == tail[i - 1];
        var k :| 0 <= k < |src| && src[k] == tail[i - 1];
        assert s[|s| - |src| + k] == src[k];
      }
    }
  }

  /** A character in front of a single-spaced string keeps it single-spaced when it is a space before a non-space, or not whitespace. */
  lemma ConsSingleSpaced(c: char, r: string)
    requires SingleSpaced(r)
    requires IsWhitespace(c) ==> c == ' ' && (r == [] || !IsWhitespace(r[0]))
    ensures SingleSpaced([c] + r)
  {
    var out := [c] + r;
    forall i | 0 <= i < |out| && IsWhitespace(out[i])
      ensures out[i] == ' ' && (i + 1 < |out| ==> !IsWhitespace(out[i + 1]))
    {
      if i > 0 {
        assert out[i] == r[i - 1];
        if i + 1 < |out| {
          assert out[i + 1] == r[i];
        }
      }
    }
  }


  // ---------------------------------------------------------------------------
  // Lemmas

  lemma TrimEmptyIffBlank(s: string)
    ensures Trim(s) == [] <==> IsBlank(s)
  {
    var t := TrimStart(s);
    if Trim(s) == [] {
      assert TrimmedLength(t) == 0;
      assert LeadingWhitespace(s) == |s|;
    }
  }

  lemma ForbiddenIffSomeCharForbidden(name: string)
    ensures ContainsForbiddenCharacters(name) <==> exists i :: 0 <= i < |name| && IsForbidden(name[i])
  {
    if exists i :: 0 <= i < |name| && IsForbidden(name[i]) {
      var i :| 0 <= i < |name| && IsForbidden(name[i]);
      var k :| 0 <= k < |ForbiddenCharacters| && ForbiddenCharacters[k] == name[i];
      assert ForbiddenCharacters[k] in name;
    }
  }

  /** `isValidName` and `getValidationError` agree: a name is valid exactly when there is no error. */
  lemma IsValidIffNoError(name: string)
    ensures IsValidName(name) <==> GetValidationError(name) == None
  {
    TrimEmptyIffBlank(name);
    ForbiddenIffSomeCharForbidden(name);
  }

  /** An empty or whitespace-only name is rejected with the emptiness message. */
  lemma BlankNameRejected(name: string)
    requires IsBlank(name)
    ensures !IsValidName(name)
    ensures GetValidationError(name) == Some(EmptyName)
    ensures Message(EmptyName) == "Attribute name cannot be empty"
  {
    TrimEmptyIffBlank(name);
  }

  /** A name longer than 100 characters, counted before trimming, is rejected. */
  lemma LongNameRejected(name: string)
    requires |name| > MaxNameLength
    ensures !IsValidName(name)
  {
  }

  /** A name containing any of `< > & " '` is rejected. */
  lemma ForbiddenCharacterRejected(name: string, i: int)
    requires 0 <= i < |name| && IsForbidden(name[i])
    ensures !IsValidName(name)
    ensures GetValidationError(name) != None
  {
    ForbiddenIffSomeCharForbidden(name);
  }

  lemma TrimShape(s: string)
    ensures |Trim(s)| <= |s|
    ensures NoEdgeWhitespace(Trim(s))
    ensures forall c :: c in Trim(s) ==> c in s
  {
    var t := TrimStart(s);
    var u := TrimEnd(t);
    if u != [] {
      assert u[0] == t[0] == s[LeadingWhitespace(s)];
      assert u[|u| - 1] == t[TrimmedLength(t) - 1];
    }
    forall c | c in u ensures c in s {
      var i :| 0 <= i < |u| && u[i] == c;
      assert s[LeadingWhitespace(s) + i] == c;
    }
  }

  /** The sanitised name has no leading or trailing whitespace and no run of two or more whitespace characters. */
  lemma SanitizeNormalForm(name: string)
    ensures NoEdgeWhitespace(SanitizeName(name))
    ensures SingleSpaced(SanitizeName(name))
  {
    TrimShape(name);
    CollapseEnds(Trim(name));
    CollapseSingleSpaced(Trim(name));
  }

  /** Sanitising never lengthens its input. */
  lemma SanitizeNeverLonger(name: string)
    ensures |SanitizeName(name)| <= |name|
    ensures SanitizeName(name) == [] <==> Trim(name) == []
  {
    TrimShape(name);
    CollapseEnds(Trim(name));
  }

  lemma SingleSpacedTail(t: string)
    requires t != [] && SingleSpaced(t)
    ensures SingleSpaced(t[1..])
  {
    var u := t[1..];
    forall i | 0 <= i < |u| && IsWhitespace(u[i])
      ensures u[i] == ' ' && (i + 1 < |u| ==> !IsWhitespace(u[i + 1]))
    {
      assert u[i] == t[i + 1];
      if i + 1 < |u| {
        assert u[i + 1] == t[i + 2];
      }
    }
  }

  lemma {:induction false} CollapseFixpoint(t: string)
    requires SingleSpaced(t)
    requires t == [] || !IsWhitespace(t[|t| - 1])
    ensures Collapse(t) == t
  {
    if t != [] {
      var u := t[1..];
      SingleSpacedTail(t);
      if u != [] {
        assert u[|u| - 1] == t[|t| - 1];
      }
      CollapseFixpoint(u);
      if IsWhitespace(t[0]) {
        assert t[0] == ' ' && |t| > 1 && !IsWhitespace(t[1]);
      }
      assert t == [t[0]] + u;
    }
  }

  /** Sanitising is idempotent. */
  lemma SanitizeIdempotent(name: string)
    ensures SanitizeName(SanitizeName(name)) == SanitizeName(name)
  {
    var u := SanitizeName(name);
    SanitizeNormalForm(name);
    TrimFixpoint(u);
    CollapseFixpoint(u);
  }

  /** `NonBlank` distributes over concatenation. */
  lemma {:induction false} NonBlankAppend(a: string, b: string)
    ensures NonBlank(a + b) == NonBlank(a) + NonBlank(b)
  {
    if a != [] {
      assert (a + b)[0] == a[0] && (a + b)[1..] == a[1..] + b;
      NonBlankAppend(a[1..], b);
    } else {
      assert a + b == b;
    }
  }

  /** A blank string has no non-whitespace characters. */
  lemma {:induction false} NonBlankOfBlank(s: string)
    requires IsBlank(s)
    ensures NonBlank(s) == []
  {
    if s != [] {
      NonBlankOfBlank(s[1..]);
    }
  }

  /** Collapsing whitespace runs keeps every non-whitespace character, in order. */
  lemma {:induction false} CollapseKeepsNonBlank(s: string)
    ensures NonBlank(Collapse(s)) == NonBlank(s)
  {
    if s != [] {
      var rest := s[1..];
      CollapseKeepsNonBlank(rest);
      if !(IsWhitespace(s[0]) && |s| > 1 && IsWhitespace(s[1])) {
        var c := if IsWhitespace(s[0]) then ' ' else s[0];
        assert Collapse(s) == [c] + Collapse(rest);
        assert ([c] + Collapse(rest))[0] == c && ([c] + Collapse(rest))[1..] == Collapse(rest);
      }
    }
  }

  /** Trimming drops only whitespace: every non-whitespace character stays, in order. */
  lemma TrimKeepsNonBlank(s: string)
    ensures NonBlank(Trim(s)) == NonBlank(s)
  {
    var l := LeadingWhitespace(s);
    assert s == s[..l] + TrimStart(s);
    NonBlankOfBlank(s[..l]);
    NonBlankAppend(s[..l], TrimStart(s));
    var t := TrimStart(s);
    var n := TrimmedLength(t);
    assert t == Trim(s) + t[n..];
    NonBlankOfBlank(t[n..]);
    NonBlankAppend(Trim(s), t[n..]);
  }

  /** Sanitising keeps every non-whitespace character of the name, in order, and adds none. */
  lemma SanitizeKeepsCharacters(name: string)
    ensures NonBlank(SanitizeName(name)) == NonBlank(name)
    ensures forall i :: 0 <= i < |SanitizeName(name)| && !IsWhitespace(SanitizeName(name)[i]) ==>
      SanitizeName(name)[i] in name
  {
    TrimShape(name);
    CollapseOrigin(Trim(name));
    TrimKeepsNonBlank(name);
    CollapseKeepsNonBlank(Trim(name));
  }

  /** A string without edge whitespace is unchanged by trimming. */
  lemma TrimFixpoint(t: string)
    requires NoEdgeWhitespace(t)
    ensures Trim(t) == t
  {
    assert LeadingWhitespace(t) == 0;
    assert TrimmedLength(t) == |t|;
  }

  /** Sanitising a name free of forbidden characters yields a name free of them. */
  lemma SanitizeAddsNoForbidden(name: string)
    requires forall i :: 0 <= i < |name| ==> !IsForbidden(name[i])
    ensures forall i :: 0 <= i < |SanitizeName(name)| ==> !IsForbidden(SanitizeName(name)[i])
  {
    var v := SanitizeName(name);
    SanitizeNormalForm(name);
    SanitizeKeepsCharacters(name);
    forall i | 0 <= i < |v| ensures !IsForbidden(v[i]) {
      if IsWhitespace(v[i]) {
        assert v[i] == ' ';
      } else {
        assert v[i] in name;
      }
    }
  }

  /** A valid name stays valid once sanitised, and is then non-empty, at most 100 long and free of forbidden characters. */
  lemma SanitizedValidNameIsValid(name: string)
    requires IsValidName(name)
    ensures var v := SanitizeName(name);
      && IsValidName(v)
      && 0 < |v| <= MaxNameLength
      && forall i :: 0 <= i < |v| ==> !IsForbidden(v[i])
  {
    var v := SanitizeName(name);
    IsValidIffNoError(name);
    TrimEmptyIffBlank(name);
    SanitizeNeverLonger(name);
    assert 0 < |v| <= MaxNameLength;
    SanitizeNormalForm(name);
    TrimFixpoint(v);
    SanitizeAddsNoForbidden(name);
    IsValidIffNoError(v);
  }
}
