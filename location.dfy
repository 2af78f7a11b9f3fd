/** The `isActiveLocation` check of the `$navigation` service: is a link target the
    current location? The location service is reduced to the current path it reports. */
module Location {
  import opened JsStrings

  /** `isActiveLocation(location)` while the location service reports `path`. */
  function IsActiveLocation(location: Arg, path: string): bool {
    match location
    case Other => false
    case Str(s) =>
      var target := ToLower(Trim(s));
      if target == [] then false
      else
        var current := ToLower(path);
        var compared := if target[0] != '/' then SliceFrom(current, 1) else current;
        compared == target
  }

  /** A value that is not a string is never the active location. */
  lemma NonStringInactive(path: string)
    ensures !IsActiveLocation(Other, path)
  {
  }

  /** The empty string and whitespace-only strings are never the active location. */
  lemma BlankInactive(s: string, path: string)
    requires AllWhitespace(s)
    ensures !IsActiveLocation(Str(s), path)
  {
    TrimEmptyIffBlank(s);
  }

  /** The whole behaviour: the trimmed target must be non-empty and equal, ignoring
      letter case, to the current path, or, when it does not start with a slash, to
      the current path after its first character. */
  lemma ActiveIff(s: string, path: string)
    ensures IsActiveLocation(Str(s), path) <==>
            var t := Trim(s);
            t != [] && if t[0] == '/' then SameIgnoringCase(t, path)
                       else |path| > 0 && SameIgnoringCase(t, path[1..])
  {
    var t := Trim(s);
    if t != [] {
      assert ToLower(t)[0] == LowerChar(t[0]);
      CaseInsensitiveEquality(t, path);
      if |path| > 0 {
        CaseInsensitiveEquality(t, path[1..]);
        assert SliceFrom(ToLower(path), 1) == ToLower(path[1..]);
      }
    }
  }

  /** Whitespace around the target does not matter. */
  lemma IgnoresPadding(front: string, s: string, back: string, path: string)
    requires AllWhitespace(front) && AllWhitespace(back)
    ensures IsActiveLocation(Str(front + s + back), path) == IsActiveLocation(Str(s), path)
  {
    TrimIgnoresPadding(front, s, back);
  }

  /** Letter case matters neither in the target nor in the current path. */
  lemma IgnoresCase(s: string, s': string, path: string, path': string)
    requires SameIgnoringCase(s, s') && SameIgnoringCase(path, path')
    ensures IsActiveLocation(Str(s), path) == IsActiveLocation(Str(s'), path')
  {
    CaseInsensitiveEquality(s, s');
    CaseInsensitiveEquality(path, path');
    TrimLowerCommute(s);
    TrimLowerCommute(s');
  }

  /** For a current path that starts with a slash, a target may leave out its own
      leading slash. */
  lemma SlashOptional(t: string, path: string)
    requires t != [] && Trim(t) == t && t[0] != '/'
    requires path != [] && path[0] == '/'
    ensures IsActiveLocation(Str("/" + t), path) == IsActiveLocation(Str(t), path)
  {
    var slashed := "/" + t;
    TrimmedEnds(t);
    SlashedIsTrimmed(t);
    ActiveIff(slashed, path);
    ActiveIff(t, path);
    SlashedSameIgnoringCase(t, path);
  }

  /** A target that ends in a character other than whitespace is its own trimmed
      form once a slash is put in front. */
  lemma SlashedIsTrimmed(t: string)
    requires t != [] && !IsWhitespace(t[|t| - 1])
    ensures Trim("/" + t) == "/" + t
  {
    var slashed := "/" + t;
    assert forall k :: 0 <= k < |t| ==> slashed[k + 1] == t[k];
    assert slashed[|slashed| - 1] == t[|t| - 1];
    TrimRecoversCore(slashed, 0, slashed);
  }

  /** Comparing "/t" with a path that starts with a slash is comparing t with the
      rest of the path. */
  lemma SlashedSameIgnoringCase(t: string, path: string)
    requires path != [] && path[0] == '/'
    ensures SameIgnoringCase("/" + t, path) <==> SameIgnoringCase(t, path[1..])
  {
    var slashed := "/" + t;
    if SameIgnoringCase(slashed, path) {
      forall k | 0 <= k < |t| ensures LowerChar(t[k]) == LowerChar(path[1..][k]) {
        assert slashed[k + 1] == t[k];
        assert LowerChar(slashed[k + 1]) == LowerChar(path[k + 1]);
      }
    }
    if SameIgnoringCase(t, path[1..]) {
      forall k | 0 <= k < |slashed| ensures LowerChar(slashed[k]) == LowerChar(path[k]) {
        if k > 0 {
          assert slashed[k] == t[k - 1];
          assert path[k] == path[1..][k - 1];
        }
      }
    }
  }

  /** A target without whitespace is its own trimmed form. */
  lemma TrimOfWord(t: string)
    requires forall i :: 0 <= i < |t| ==> !IsWhitespace(t[i])
    ensures Trim(t) == t
  {
    TrimRecoversCore(t, 0, t);
  }

  /** The service's own tests with the current path /home: the active targets. */
  lemma TestedSinglePartActive()
    ensures IsActiveLocation(Str("/home"), "/home")
    ensures IsActiveLocation(Str("home"), "/home")
  {
    TrimOfWord("/home");
    TrimOfWord("home");
    ActiveIff("/home", "/home");
    ActiveIff("home", "/home");
  }

  /** The service's own tests with the current path /home: blank targets. */
  lemma TestedSinglePartBlank()
    ensures !IsActiveLocation(Str(""), "/home")
    ensures !IsActiveLocation(Str(" "), "/home")
  {
    BlankInactive("", "/home");
    BlankInactive(" ", "/home");
  }

  /** The service's own tests with the current path /home: inactive targets with a
      leading slash. */
  lemma TestedSinglePartInactiveSlashed()
    ensures !IsActiveLocation(Str("/"), "/home")
    ensures !IsActiveLocation(Str("/homer"), "/home")
    ensures !IsActiveLocation(Str("/hom"), "/home")
  {
    TrimOfWord("/");
    TrimOfWord("/homer");
    TrimOfWord("/hom");
    ActiveIff("/", "/home");
    ActiveIff("/homer", "/home");
    ActiveIff("/hom", "/home");
  }

  /** The service's own tests with the current path /home: inactive targets without
      a leading slash. */
  lemma TestedSinglePartInactiveBare()
    ensures !IsActiveLocation(Str("homer"), "/home")
    ensures !IsActiveLocation(Str("hom"), "/home")
  {
    TrimOfWord("homer");
    TrimOfWord("hom");
    ActiveIff("homer", "/home");
    ActiveIff("hom", "/home");
  }

  /** The service's own tests with the current path /home/next: the active targets. */
  lemma TestedMultiPartActive()
    ensures IsActiveLocation(Str("/home/next"), "/home/next")
    ensures IsActiveLocation(Str("home/next"), "/home/next")
  {
    TrimOfWord("/home/next");
    TrimOfWord("home/next");
    ActiveIff("/home/next", "/home/next");
    ActiveIff("home/next", "/home/next");
  }

  /** The service's own tests with the current path /home/next: inactive targets
      with a leading slash. */
  lemma TestedMultiPartInactiveSlashed()
    ensures !IsActiveLocation(Str("/"), "/home/next")
    ensures !IsActiveLocation(Str("/home/nex"), "/home/next")
    ensures !IsActiveLocation(Str("/home/nexta"), "/home/next")
    ensures !IsActiveLocation(Str("/homer/next"), "/home/next")
  {
    TrimOfWord("/");
    TrimOfWord("/home/nex");
    TrimOfWord("/home/nexta");
    TrimOfWord("/homer/next");
    ActiveIff("/", "/home/next");
    ActiveIff("/home/nex", "/home/next");
    ActiveIff("/home/nexta", "/home/next");
    ActiveIff("/homer/next", "/home/next");
  }

  /** The service's own tests with the current path /home/next: inactive targets
      without a leading slash. */
  lemma TestedMultiPartInactiveBare()
    ensures !IsActiveLocation(Str("hom/nex"), "/home/next")
    ensures !IsActiveLocation(Str("home/next/next"), "/home/next")
  {
    TrimOfWord("hom/nex");
    TrimOfWord("home/next/next");
    ActiveIff("hom/nex", "/home/next");
    ActiveIff("home/next/next", "/home/next");
  }

  /** The comparison is an exact match, not a match by leading path parts: the
      first part of the current path is not itself active. */
  lemma ExactNotPrefix()
    ensures !IsActiveLocation(Str("home"), "/home/next")
    ensures !IsActiveLocation(Str("/home"), "/home/next")
  {
    TrimOfWord("home");
    TrimOfWord("/home");
    ActiveIff("home", "/home/next");
    ActiveIff("/home", "/home/next");
  }
}
