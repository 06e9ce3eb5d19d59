/**
 * The configuration check of ExecutorVerticle and the early exit it
 * causes in `start`. A component class may carry a `@Config` annotation
 * listing fields (a name, a declared type and whether the field is
 * required); before the executor is started every listed field is
 * checked against the component's JSON configuration.
 *
 * Java's class hierarchy is an input: `assignable` holds the pairs
 * (declared type, runtime class) for which `isAssignableFrom` is true.
 * A configuration maps each key with a non-null value to that value's
 * runtime class; a key that is absent or holds JSON null is not in it.
 */
module ExecutorConfig {
  import opened Common

  /** The name of a Java class. */
  type TypeName = string

  /** One `@Config.Field`: its name, its declared type and whether it is required. */
  datatype ConfigField = ConfigField(name: string, typ: TypeName, required: bool)

  /** The result of `checkConfig`: accepted, or the field that raised the `VertigoException`. */
  datatype Check = Accepted | Invalid(field: ConfigField)

  /** What `start` leaves behind: whether `executor.start` was called, and the state of the start future. */
  datatype Startup = Startup(executorStarted: bool, future: Future)

  /** The start future: failed with a cause, or completed. */
  datatype Future = Failed(cause: string) | Completed

  /** The message of the exception `checkConfig` throws. */
  const InvalidConfiguration: string := "Invalid component configuration."

  /**
   * One field passes: a present value's class is assignable to the
   * declared type, and a missing value is allowed only when the field is
   * optional.
   */
  predicate FieldOk(f: ConfigField, config: map<string, TypeName>, assignable: set<(TypeName, TypeName)>)
  {
    if f.name in config then (f.typ, config[f.name]) in assignable else !f.required
  }

  /** The first field, in declaration order, that does not pass; `Accepted` when there is none. */
  function FirstInvalid(fields: seq<ConfigField>, config: map<string, TypeName>, assignable: set<(TypeName, TypeName)>): (r: Check)
    ensures r.Invalid? ==> r.field in fields && !FieldOk(r.field, config, assignable)
  {
    if fields == [] then Accepted
    else if !FieldOk(fields[0], config, assignable) then Invalid(fields[0])
    else FirstInvalid(fields[1..], config, assignable)
  }

  /**
   * The configuration is accepted exactly when every declared field passes;
   * otherwise the reported field is the first one that fails.
   */
  lemma {:induction false} FirstInvalidIsFirst(fields: seq<ConfigField>, config: map<string, TypeName>,
                                              assignable: set<(TypeName, TypeName)>)
    ensures FirstInvalid(fields, config, assignable) == Accepted <==>
      forall i :: 0 <= i < |fields| ==> FieldOk(fields[i], config, assignable)
    ensures FirstInvalid(fields, config, assignable).Invalid? ==>
      exists i :: 0 <= i < |fields| && fields[i] == FirstInvalid(fields, config, assignable).field &&
        !FieldOk(fields[i], config, assignable) &&
        forall j :: 0 <= j < i ==> FieldOk(fields[j], config, assignable)
  {
    if fields != [] {
      FirstInvalidIsFirst(fields[1..], config, assignable);
      var r := FirstInvalid(fields, config, assignable);
      if FieldOk(fields[0], config, assignable) {
        assert forall i :: 1 <= i < |fields| ==> fields[i] == fields[1..][i - 1];
        if r.Invalid? {
          var i :| 0 <= i < |fields[1..]| && fields[1..][i] == r.field && !FieldOk(fields[1..][i], config, assignable) &&
            forall j :: 0 <= j < i ==> FieldOk(fields[1..][j], config, assignable);
          assert fields[i + 1] == r.field;
          forall j | 0 <= j < i + 1 ensures FieldOk(fields[j], config, assignable) {
            if j > 0 {
              assert fields[j] == fields[1..][j - 1];
            }
          }
        }
      } else {
        assert fields[0] == r.field;
      }
    }
  }

  /** A present value whose class is not assignable to its field's declared type raises. */
  lemma WrongTypeRejects(fields: seq<ConfigField>, config: map<string, TypeName>,
                         assignable: set<(TypeName, TypeName)>, i: nat)
    requires i < |fields| && fields[i].name in config
    requires (fields[i].typ, config[fields[i].name]) !in assignable
    ensures FirstInvalid(fields, config, assignable).Invalid?
  {
    FirstInvalidIsFirst(fields, config, assignable);
  }

  /** A missing value for a required field raises. */
  lemma MissingRequiredRejects(fields: seq<ConfigField>, config: map<string, TypeName>,
                               assignable: set<(TypeName, TypeName)>, i: nat)
    requires i < |fields| && fields[i].required && fields[i].name !in config
    ensures FirstInvalid(fields, config, assignable).Invalid?
  {
    FirstInvalidIsFirst(fields, config, assignable);
  }

  /**
   * A missing optional field is never the cause of a rejection: the
   * outcome is the one of the same check without that field.
   */
  lemma {:induction false} MissingOptionalIgnored(fields: seq<ConfigField>, config: map<string, TypeName>,
                                                 assignable: set<(TypeName, TypeName)>, i: nat)
    requires i < |fields| && fields[i].name !in config && !fields[i].required
    ensures FirstInvalid(fields, config, assignable) == FirstInvalid(fields[..i] + fields[i + 1..], config, assignable)
    decreases i
  {
    if i == 0 {
      assert fields[..0] + fields[1..] == fields[1..];
    } else {
      MissingOptionalIgnored(fields[1..], config, assignable, i - 1);
      var rest := fields[..i] + fields[i + 1..];
      assert rest[0] == fields[0];
      assert rest[1..] == fields[1..][..i - 1] + fields[1..][i..];
    }
  }

  /**
   * `checkConfig`: without a `@Config` annotation any configuration is
   * accepted; with one, the declared fields are checked in order and the
   * first that fails raises.
   */
  method CheckConfig(annotation: Option<seq<ConfigField>>, config: map<string, TypeName>,
                     assignable: set<(TypeName, TypeName)>) returns (r: Check)
    ensures annotation.None? ==> r == Accepted
    ensures annotation.Some? ==> r == FirstInvalid(annotation.value, config, assignable)
    ensures r == Accepted <==>
      annotation.None? || forall i :: 0 <= i < |annotation.value| ==> FieldOk(annotation.value[i], config, assignable)
  {
    if annotation.None? {
      return Accepted;
    }
    var fields := annotation.value;
    FirstInvalidIsFirst(fields, config, assignable);
    var i := 0;
    while i < |fields|
      invariant 0 <= i <= |fields|
      invariant FirstInvalid(fields, config, assignable) == FirstInvalid(fields[i..], config, assignable)
    {
      var f := fields[i];
      assert fields[i..][0] == f && fields[i..][1..] == fields[i + 1..];
      if f.name in config {
        if (f.typ, config[f.name]) !in assignable {
          return Invalid(f);
        }
      } else if f.required {
        return Invalid(f);
      }
      i := i + 1;
    }
    return Accepted;
  }

  /**
   * The early exit of `start`: when `checkConfig` raises, the start future
   * fails with the exception and the executor is never started; otherwise
   * the executor is started and the future follows its start result
   * (`executorOk`), completing through the verticle's own `start`.
   */
  method Start(annotation: Option<seq<ConfigField>>, config: map<string, TypeName>,
               assignable: set<(TypeName, TypeName)>, executorOk: bool) returns (s: Startup)
    ensures s.executorStarted <==>
      annotation.None? || forall i :: 0 <= i < |annotation.value| ==> FieldOk(annotation.value[i], config, assignable)
    ensures !s.executorStarted ==> s.future == Failed(InvalidConfiguration)
    ensures s.executorStarted ==> s.future == (if executorOk then Completed else Failed(ExecutorStartFailure))
  {
    var check := CheckConfig(annotation, config, assignable);
    if check.Invalid? {
      return Startup(false, Failed(InvalidConfiguration));
    }
    if executorOk {
      s := Startup(true, Completed);
    } else {
      s := Startup(true, Failed(ExecutorStartFailure));
    }
  }

  /** The cause reported when the executor itself fails to start (its text is not modelled). */
  const ExecutorStartFailure: string := "executor start failed"
}
