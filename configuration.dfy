/** The configuration record of the `$navigation` provider: its initial value, the
    `configure` merge that fills in defaults, `getConfiguration`, and the service's
    `inAudience`, which consults the configured validation function. */
module Configuration {
  import opened JsStrings
  import opened Audience

  /** A value stored in the configuration record. */
  datatype Value =
    | Undefined
    | Text(s: string)
    | IdentityRoleMapFunction    // the default roleToAudienceMapFunction
    | DefaultValidationFunction  // the default inAudienceValidationFunction
    | Foreign(id: nat)           // any other value, such as a function the application supplies

  /** A configuration record, or the options object passed to `configure`: property
      names and their values. A property may be present and still undefined. */
  type Record = map<string, Value>

  const RoleMapKey: string := "roleToAudienceMapFunction"
  const ValidationKey: string := "inAudienceValidationFunction"

  /** The record the provider starts with: the two default functions. */
  const Initial: Record := map[RoleMapKey := IdentityRoleMapFunction,
                               ValidationKey := DefaultValidationFunction]

  /** `obj` gives `key` a value other than undefined. */
  predicate Defines(obj: Record, key: string) {
    key in obj && obj[key] != Undefined
  }

  /** `_.defaults(obj, source)`: `obj` with every property it leaves undefined taken
      from `source`. */
  function Defaults(obj: Record, source: Record): (r: Record)
    ensures r.Keys == obj.Keys + source.Keys
    ensures forall k :: Defines(obj, k) ==> r[k] == obj[k]
    ensures forall k :: k in source && !Defines(obj, k) ==> r[k] == source[k]
    ensures forall k :: k in r && k !in source ==> r[k] == obj[k]
  {
    map k | k in obj.Keys + source.Keys ::
      if Defines(obj, k) then obj[k] else if k in source then source[k] else obj[k]
  }

  /** Filling in defaults a second time changes nothing. */
  lemma DefaultsIdempotent(obj: Record, source: Record)
    ensures Defaults(obj, Defaults(obj, source)) == Defaults(obj, source)
  {
  }

  /** Options that define nothing leave the record as it is. */
  lemma DefaultsOfEmpty(source: Record)
    ensures Defaults(map[], source) == source
  {
  }

  /** Options that define every property of the record replace it. */
  lemma DefaultsOverridden(obj: Record, source: Record)
    requires forall k :: k in source ==> Defines(obj, k)
    ensures Defaults(obj, source) == obj
  {
  }

  /** A property the record defines stays defined, whatever the options say. */
  lemma DefaultsKeepDefined(obj: Record, source: Record, key: string)
    requires Defines(source, key)
    ensures Defines(Defaults(obj, source), key)
  {
  }

  /** Two `configure` calls in a row act as one call with the second call's options
      filled in from the first's. */
  lemma DefaultsCompose(first: Record, second: Record, record: Record)
    ensures Defaults(second, Defaults(first, record)) == Defaults(Defaults(second, first), record)
  {
    var left := Defaults(second, Defaults(first, record));
    var right := Defaults(Defaults(second, first), record);
    assert left.Keys == right.Keys;
    forall k | k in left ensures left[k] == right[k] {
    }
  }

  /** The record holds the two default functions, so `inAudience` has the meaning
      given by Audience.InAudience. */
  predicate UsesDefaultFunctions(record: Record) {
    && RoleMapKey in record && record[RoleMapKey] == IdentityRoleMapFunction
    && ValidationKey in record && record[ValidationKey] == DefaultValidationFunction
  }

  /** Options that do not define the two functions keep them. */
  lemma DefaultFunctionsSurvive(opts: Record, record: Record)
    requires UsesDefaultFunctions(record)
    requires !Defines(opts, RoleMapKey) && !Defines(opts, ValidationKey)
    ensures UsesDefaultFunctions(Defaults(opts, record))
  {
  }

  /** The options the service's own tests configure. */
  const TestOptions: Record := map["activeLinkDecorator" := Text("active-decorator"),
                                   "inactiveLinkDecorator" := Text("inactive-decorator"),
                                   "securityService" := Text("$security")]

  /** After the tests' `configure` call the record holds the tests' options and both
      default functions. */
  lemma TestedConfiguration()
    ensures var c := Defaults(TestOptions, Initial);
            && c.Keys == TestOptions.Keys + {RoleMapKey, ValidationKey}
            && c["activeLinkDecorator"] == Text("active-decorator")
            && c["inactiveLinkDecorator"] == Text("inactive-decorator")
            && c["securityService"] == Text("$security")
            && UsesDefaultFunctions(c)
  {
    var c := Defaults(TestOptions, Initial);
    assert "activeLinkDecorator" in TestOptions;
    assert "inactiveLinkDecorator" in TestOptions;
    assert "securityService" in TestOptions;
    assert RoleMapKey !in TestOptions && ValidationKey !in TestOptions;
  }

  /** The `$navigation` provider: the configuration record it captures, changed by
      `configure`, and the service functions that read it. */
  class NavigationProvider {
    var configuration: Record

    constructor ()
      ensures configuration == Initial
    {
      configuration := Initial;
    }

    /** `configure(opts)`: the options, with every property they leave undefined
        taken from the current record, become the record. */
    method Configure(opts: Record)
      modifies this
      ensures configuration == Defaults(opts, old(configuration))
      ensures forall k :: Defines(opts, k) ==> configuration[k] == opts[k]
      ensures forall k :: k in old(configuration) && !Defines(opts, k) ==>
                configuration[k] == old(configuration)[k]
      ensures (UsesDefaultFunctions(old(configuration)) && !Defines(opts, RoleMapKey)
               && !Defines(opts, ValidationKey)) ==> UsesDefaultFunctions(configuration)
    {
      if UsesDefaultFunctions(configuration) && !Defines(opts, RoleMapKey) && !Defines(opts, ValidationKey) {
        DefaultFunctionsSurvive(opts, configuration);
      }
      configuration := Defaults(opts, configuration);
    }

    /** `getConfiguration()`: the current record. */
    method GetConfiguration() returns (record: Record)
      ensures record == configuration
    {
      record := configuration;
    }

    /** The service's `inAudience(...args)`: the special cases decide without the
        record; otherwise the configured validation function decides. The result is
        None when that function is not the default one, since its behaviour is not
        part of this model. */
    function InAudience(authenticated: bool, roles: seq<string>, args: seq<Arg>): (r: Option<bool>)
      reads this
      ensures UsesDefaultFunctions(configuration) ==>
                r == Some(Audience.InAudience(authenticated, roles, args))
      ensures Screen(authenticated, args).Answer? ==> r == Some(Screen(authenticated, args).result)
      ensures r.None? <==> Screen(authenticated, args) == Validate
                           && !UsesDefaultFunctions(configuration)
    {
      match Screen(authenticated, args)
      case Answer(b) => Some(b)
      case Validate =>
        if UsesDefaultFunctions(configuration) then Some(DefaultValidation(roles, args)) else None
    }
  }

  /** A client of the provider: the sequence the service's tests go through. */
  method ConfiguredService(authenticated: bool, roles: seq<string>, args: seq<Arg>)
    returns (record: Record, inAudience: Option<bool>)
    ensures record == Defaults(TestOptions, Initial)
    ensures inAudience == Some(Audience.InAudience(authenticated, roles, args))
  {
    var provider := new NavigationProvider();
    provider.Configure(TestOptions);
    record := provider.GetConfiguration();
    TestedConfiguration();
    inAudience := provider.InAudience(authenticated, roles, args);
  }
}
