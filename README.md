# angular-navigation-service in Dafny

A model of the `$navigation` provider of angular-navigation-service. The provider
holds a configuration record and exposes three service functions:

- `inAudience(...args)` decides whether the current user belongs to one of the
  requested audiences. A single `ALL` or `ANONYMOUS` token, in any letter case,
  is handled specially. Otherwise the default validation function checks whether
  some requested audience is one of the user's (mapped) roles.
- `isActiveLocation(location)` decides whether a link target is the current path.
  It trims the target and compares it case-insensitively. When the target has no
  leading slash, the path's first character is dropped before comparing.
- `configure(opts)` / `getConfiguration()` update and read the configuration
  record by the `_.defaults` rule: the caller's defined properties win, and every
  other property keeps its earlier value.

The collaborators become plain values:
- the authentication service becomes `authenticated: bool` and `roles: seq<string>`;
- the location service becomes the current `path: string`;
- a JavaScript argument is `Arg = Str(s) | Other`, where `Other` stands for any non-string value.

Modules:
- `JsStrings`: the string operations the service uses, namely `trim`, ASCII
  `toLowerCase` / `toUpperCase` and `slice(start)`, with their laws.
- `Audience`: `inAudience` and the default role map and validation functions.
- `Location`: `isActiveLocation`.
- `Configuration`: the configuration record, the `_.defaults` merge, and the
  `NavigationProvider` class. Its `configure` reassigns the record.

`isActiveLocation` here is the exact-match comparison that
`angular-navigation-service.js` implements. Other versions of the project compared
tokenised paths by prefix. That mode is not modelled, and the multi-part cases in
`tests.js` that the model covers also agree with exact matching.

## Model

| member | source | states |
|---|---|---|
| `JsStrings.Trim` | angular-navigation-service.js:54 | the trimmed string is the core of a split of the input into leading whitespace, a core that neither starts nor ends with whitespace, and trailing whitespace |
| `JsStrings.TrimRecoversCore` | angular-navigation-service.js:54 | that split is unique: any such core is exactly what trim returns |
| `JsStrings.TrimIgnoresPadding` | angular-navigation-service.js:54 | whitespace added on either side of a string does not change its trimmed form |
| `JsStrings.TrimmedEnds` | angular-navigation-service.js:54 | a non-empty trimmed string starts and ends with a character that is not whitespace |
| `JsStrings.TrimIdempotent` | angular-navigation-service.js:54 | trimming a trimmed string changes nothing |
| `JsStrings.TrimEmptyIffBlank` | angular-navigation-service.js:54-57 | a string trims to the empty string exactly when every character is whitespace |
| `JsStrings.CaseInsensitiveEquality` | angular-navigation-service.js:54-63 | two strings have equal lower-case forms, and equal upper-case forms, exactly when they are the same word ignoring letter case |
| `JsStrings.TrimLowerCommute` | angular-navigation-service.js:54 | trimming then lower-casing equals lower-casing then trimming |
| `JsStrings.LowerPadding` | angular-navigation-service.js:54 | lower-casing a whitespace split of a string gives a whitespace split around the lower-cased core |
| `JsStrings.SliceFrom` | angular-navigation-service.js:61 | `slice(start)` yields the characters from `start` on, or the empty string past the end |
| `Audience.Screen` | angular-navigation-service.js:29-43 | the validation function is reached exactly when there is an argument, the user is authenticated and the call is not a single ALL or ANONYMOUS token |
| `Audience.UserAudiences` | angular-navigation-service.js:10 | an audience belongs to the user exactly when the role map gives it for one of the user's roles |
| `Audience.IdentityAudiencesAreRoles` | angular-navigation-service.js:6-10 | with the default role map the user's audiences are the user's roles, in order |
| `Audience.FindAudience` | angular-navigation-service.js:12 | the search returns the first requested audience that the user has, or reports that none of them is one |
| `Audience.ValidationIff` | angular-navigation-service.js:9-13 | validation succeeds exactly when some requested audience is given by the role map for some role |
| `Audience.DefaultValidationIff` | angular-navigation-service.js:9-13 | the default validation succeeds exactly when some requested audience is one of the user's roles |
| `Audience.AllSpelling` | angular-navigation-service.js:33 | an argument upper-cases to ALL exactly when it is "all" in some letter case |
| `Audience.AnonymousSpelling` | angular-navigation-service.js:36 | an argument upper-cases to ANONYMOUS exactly when it is "anonymous" in some letter case |
| `Audience.SingleArgument` | angular-navigation-service.js:32-44 | a single string argument gives the authenticated flag for "all", its negation for "anonymous" (any letter case), and otherwise whether the user is authenticated and has that role |
| `Audience.NoArguments` | angular-navigation-service.js:41-43 | with no argument the user is never in the audience |
| `Audience.Unauthenticated` | angular-navigation-service.js:32-43 | an unauthenticated user is in the audience exactly when the call is a single ANONYMOUS token |
| `Audience.GenericCase` | angular-navigation-service.js:41-44 | apart from the two single-token cases, the user is in the audience exactly when authenticated and some argument is one of the roles |
| `Audience.SpecialTokensInLists` | angular-navigation-service.js:32-44 | with two or more arguments ALL and ANONYMOUS are ordinary audience names |
| `Audience.TestedUnauthenticated` | spec/services.js:62-72 | an unauthenticated user is in "anonymous" and not in "all" |
| `Audience.TestedAuthenticated` | spec/services.js:91-117 | a user with role "a" is not in "anonymous" or "b" and is in "all" and "a" |
| `Audience.TestedLists` | spec/services.js:119-123 | the user with role "a" is in ("a", "b") |
| `Audience.ListedTokensAreNames` | angular-navigation-service.js:32-44 | the user with role "a" is not in ("all", "all"), and a role "ALL" does not match a listed "all" |
| `Location.NonStringInactive` | angular-navigation-service.js:51-53 | a non-string argument is never the active location |
| `Location.BlankInactive` | angular-navigation-service.js:54-57 | an empty or whitespace-only string is never the active location |
| `Location.ActiveIff` | angular-navigation-service.js:50-64 | a target is active exactly when its trimmed form is non-empty and, ignoring case, equals the path (slashed target) or the path after its first character (bare target) |
| `Location.IgnoresPadding` | angular-navigation-service.js:54 | whitespace around the target does not change the answer |
| `Location.IgnoresCase` | angular-navigation-service.js:54-58 | the answer depends on the letter case of neither the target nor the path |
| `Location.SlashOptional` | angular-navigation-service.js:59-63 | when the path starts with a slash, "/t" and "t" are active together |
| `Location.SlashedSameIgnoringCase` | angular-navigation-service.js:59-63 | "/t" matches a path that starts with a slash exactly when t matches the rest of the path |
| `Location.TrimOfWord` | angular-navigation-service.js:54 | a string without whitespace is its own trimmed form |
| `Location.TestedSinglePartActive` | spec/services.js:162-169 | with path /home, "/home" and "home" are active |
| `Location.TestedSinglePartBlank` | spec/services.js:141-148 | with path /home, "" and " " are not active |
| `Location.TestedSinglePartInactiveSlashed` | spec/services.js:150-160 | with path /home, "/", "/homer" and "/hom" are not active |
| `Location.TestedSinglePartInactiveBare` | spec/services.js:150-160 | with path /home, "homer" and "hom" are not active |
| `Location.TestedMultiPartActive` | tests.js:279-286 | with path /home/next, "/home/next" and "home/next" are active |
| `Location.TestedMultiPartInactiveSlashed` | tests.js:257-268 | with path /home/next, "/", "/home/nex", "/home/nexta" and "/homer/next" are not active |
| `Location.TestedMultiPartInactiveBare` | tests.js:257-268 | with path /home/next, "hom/nex" and "home/next/next" are not active |
| `Location.ExactNotPrefix` | angular-navigation-service.js:58-63 | with path /home/next, the leading part "home" or "/home" alone is not active: the comparison is exact |
| `Configuration.Defaults` | angular-navigation-service.js:20 | the merged record has the keys of both records; a property the options define keeps the options' value, and every other property takes the earlier record's value if it has one |
| `Configuration.DefaultsIdempotent` | angular-navigation-service.js:19-21 | configuring twice with the same options is configuring once |
| `Configuration.DefaultsOfEmpty` | angular-navigation-service.js:19-21 | configuring with empty options leaves the record unchanged |
| `Configuration.DefaultsOverridden` | angular-navigation-service.js:19-21 | options that define every property of the record replace it |
| `Configuration.DefaultsKeepDefined` | angular-navigation-service.js:19-21 | a property the record defines is never made undefined by configure |
| `Configuration.DefaultsCompose` | angular-navigation-service.js:19-21 | two configure calls equal one call with the second options filled in from the first |
| `Configuration.DefaultFunctionsSurvive` | angular-navigation-service.js:5-21 | options that do not define the two function properties keep the default functions |
| `Configuration.TestedConfiguration` | spec/services.js:6-10 | after the tests' configure call the record holds the three configured strings and both default functions |
| `Configuration.NavigationProvider.constructor` | angular-navigation-service.js:5-14 | the provider starts with the default role map and validation function |
| `Configuration.NavigationProvider.Configure` | angular-navigation-service.js:19-21 | the new record is the options filled in from the old record: defined options win, every other old property is kept, and so are the default functions |
| `Configuration.NavigationProvider.GetConfiguration` | angular-navigation-service.js:69-71 | returns exactly the current record |
| `Configuration.NavigationProvider.InAudience` | angular-navigation-service.js:28-45 | the special cases answer without the record; with the default functions configured the answer is that of `Audience.InAudience`; none is given only when a non-default function would be called |
| `Configuration.ConfiguredService` | spec/services.js:25-34 | a provider configured as in the tests returns the expected record and the default `inAudience` answer |

## Left out

- Angular wiring is not modelled: the module and provider registration, the `$get` injection and the wrapper over `window`, `_` and `angular`. The two collaborators are parameters instead.
- The authentication and location services are not modelled. Their answers are passed in as values.
- Caller-supplied `roleToAudienceMapFunction` and `inAudienceValidationFunction` are foreign code. `Audience.Validation` takes an arbitrary role map from a role to a list of audiences. `Configuration.NavigationProvider.InAudience` returns no answer when a non-default function is configured.
- Whether `_.flatten(userRoles, fn)` applies `fn` depends on the Underscore or Lodash version, which is not part of this model. With the default identity map on string roles both readings give the roles themselves, and that is the case specified.
- Roles that are nested arrays are not modelled. Roles are a flat list of strings.
- Full Unicode case mapping is not modelled: `toLowerCase` and `toUpperCase` map only A-Z and a-z here. In JavaScript, for example, U+017F (long s) upper-cases to "S", so "anonymouſ" also counts as ANONYMOUS there.
- JsStrings.SliceFrom: strings are sequences of Unicode scalar values, not of UTF-16 code units, so `slice(1)` and `charAt(0)` differ from JavaScript when the first character lies outside the Basic Multilingual Plane. For target "abc" and path "\u{1F600}abc" JavaScript leaves a lone surrogate before "abc" and answers false, while the model drops the whole character and answers true. Lone surrogates cannot be written as Dafny characters.
- `trim()` is modelled with the ECMAScript whitespace and line-terminator set. The Unicode "Zs" space category is fixed at its present members.
- Boxed `String` objects are not modelled. They count as strings for the single-token check and as non-strings in the generic case.
- Aliasing is not modelled. `_.defaults` mutates the caller's options object, and that object becomes the configuration. `getConfiguration` returns the live object, so caller mutation shows through. The model passes records by value.
- `configure` called with `undefined` or `null` is not modelled. Underscore and Lodash treat it differently.
- Inherited (prototype) properties are not modelled in the `_.defaults` merge.
- `decorateLink`, `goto`, `back` and `tokenizePath` are not modelled. They appear in `tests.js`, but their implementation is not part of this model.
- The prefix-token comparison mode of `isActiveLocation` is not modelled. The modelled source compares exact strings.
- The build tooling (`gulpfile.js`) is not modelled. The `Tested*` lemmas state the test suites' expected answers as properties of the model.
