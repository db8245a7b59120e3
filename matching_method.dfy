/** The matching-method enumeration of the sfmTransfer tool and its conversions
    to and from the lower-case names used on the command line. */
module MatchingMethod {

  /** The conversion from a name throws std::out_of_range on an unknown name;
      here that exception is the Err case, carrying the exception's message. */
  datatype Result<T> = Ok(value: T) | Err(message: string)

  /** How the views of the two scenes are put in correspondence. */
  datatype EMatchingMethod = FromViewId | FromFilePath | FromMetadata

  /** The name of each method, written in lower case. */
  function EnumToString(m: EMatchingMethod): (s: string)
    ensures |s| > 0
    ensures forall i :: 0 <= i < |s| ==> !IsAsciiUpper(s[i])
  {
    match m
    case FromViewId => "from_viewid"
    case FromFilePath => "from_filepath"
    case FromMetadata => "from_metadata"
  }

  predicate IsAsciiUpper(c: char)
  {
    'A' <= c <= 'Z'
  }

  /** The C library's `tolower` in the "C" locale: only 'A'..'Z' change. */
  function ToLowerChar(c: char): (r: char)
    ensures !IsAsciiUpper(r)
    ensures IsAsciiUpper(c) ==> r as int == c as int + 32
    ensures !IsAsciiUpper(c) ==> r == c
  {
    if IsAsciiUpper(c) then (c as int + 32) as char else c
  }

  /** The character-by-character lower-casing of a copy of the input. */
  function ToLower(s: string): (r: string)
    ensures |r| == |s|
    ensures forall i :: 0 <= i < |s| ==> r[i] == ToLowerChar(s[i])
  {
    if s == [] then [] else [ToLowerChar(s[0])] + ToLower(s[1..])
  }

  /** `s` and `t` differ at most in the ASCII case of their letters. */
  predicate SameIgnoringAsciiCase(s: string, t: string)
  {
    |s| == |t| && forall i :: 0 <= i < |s| ==> ToLowerChar(s[i]) == ToLowerChar(t[i])
  }

  /** The name of a method, in any ASCII case, gives the method back; any
      other string is an error whose message quotes the input as given. */
  function StringToEnum(s: string): (r: Result<EMatchingMethod>)
    ensures r.Ok? ==> EnumToString(r.value) == ToLower(s)
    ensures r.Err? ==> forall m :: EnumToString(m) != ToLower(s)
    ensures r.Err? ==> r.message == "Invalid SfM alignment method : " + s
  {
    var lowered := ToLower(s);
    if lowered == "from_viewid" then Ok(FromViewId)
    else if lowered == "from_filepath" then Ok(FromFilePath)
    else if lowered == "from_metadata" then Ok(FromMetadata)
    else Err("Invalid SfM alignment method : " + s)
  }

  /** Lower-casing leaves a string without upper-case letters as it is. */
  lemma LowerOfLowerIsIdentity(s: string)
    requires forall i :: 0 <= i < |s| ==> !IsAsciiUpper(s[i])
    ensures ToLower(s) == s
  {
    assert forall i :: 0 <= i < |s| ==> ToLower(s)[i] == s[i];
  }

  /** Lower-casing a name changes nothing. */
  lemma NamesAreLowerCase(m: EMatchingMethod)
    ensures ToLower(EnumToString(m)) == EnumToString(m)
  {
    LowerOfLowerIsIdentity(EnumToString(m));
  }

  /** Distinct methods have distinct names. */
  lemma EnumToStringInjective(m1: EMatchingMethod, m2: EMatchingMethod)
    ensures EnumToString(m1) == EnumToString(m2) ==> m1 == m2
  {
    if m1 != m2 {
      // the names already differ at index 5: 'v', 'f' or 'm'
      assert EnumToString(m1)[5] != EnumToString(m2)[5];
    }
  }

  /** Converting a method to its name and back gives the method. */
  lemma RoundTrip(m: EMatchingMethod)
    ensures StringToEnum(EnumToString(m)) == Ok(m)
  {
    NamesAreLowerCase(m);
    var r := StringToEnum(EnumToString(m));
    if r.Ok? {
      EnumToStringInjective(r.value, m);
    }
  }

  /** Two strings that differ only in ASCII case lower-case to the same string. */
  lemma SameIgnoringCaseLowersEqually(s: string, t: string)
    requires SameIgnoringAsciiCase(s, t)
    ensures ToLower(s) == ToLower(t)
  {
    assert forall i :: 0 <= i < |s| ==> ToLower(s)[i] == ToLower(t)[i];
  }

  /** The conversion does not see ASCII case: two strings that differ only
      in case both fail or both give the same method. */
  lemma StringToEnumCaseInsensitive(s: string, t: string)
    requires SameIgnoringAsciiCase(s, t)
    ensures StringToEnum(s).Ok? <==> StringToEnum(t).Ok?
    ensures StringToEnum(s).Ok? ==> StringToEnum(s).value == StringToEnum(t).value
  {
    SameIgnoringCaseLowersEqually(s, t);
  }

  /** A string is accepted as method `m` exactly when it is the name of `m`
      written in any mix of ASCII cases. */
  lemma StringToEnumAccepts(s: string, m: EMatchingMethod)
    ensures StringToEnum(s) == Ok(m) <==> SameIgnoringAsciiCase(s, EnumToString(m))
  {
    NamesAreLowerCase(m);
    var name := EnumToString(m);
    if StringToEnum(s) == Ok(m) {
      assert ToLower(s) == name;
      forall i | 0 <= i < |s|
        ensures ToLowerChar(s[i]) == ToLowerChar(name[i])
      {
        assert ToLower(s)[i] == ToLowerChar(s[i]);
      }
    }
    if SameIgnoringAsciiCase(s, name) {
      SameIgnoringCaseLowersEqually(s, name);
      RoundTrip(m);
    }
  }

  /** The conversion fails exactly when the lower-cased input is none of the
      three names. */
  lemma StringToEnumFails(s: string)
    ensures StringToEnum(s).Err? <==>
            ToLower(s) !in {"from_viewid", "from_filepath", "from_metadata"}
  {
  }
}
