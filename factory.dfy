/**
 * STN-botv2/services/factory.py: the service factory that hands out one cached instance
 * per service name, checks the configuration a service needs before building it, and
 * remembers a failure so that a service which failed once is never built again (until
 * the factory is reset).
 *
 * The source keeps its two dictionaries on the class itself; here one `ServiceFactory`
 * object stands for that class-level state. Building a service (`service_class()`) is
 * an oracle: the caller passes its outcome as a `Construction`. An exception raised to
 * the caller (`ServiceUnavailableError`) is the `Unavailable` outcome.
 */
module Factory {
  import opened Wrappers
  import SettingsV2

  /** What calling the service class gave: an instance, or an exception with its text. */
  datatype Construction<S> = Built(instance: S) | Raised(message: string)

  /** What `get_service` gives its caller: the instance, None, or ServiceUnavailableError. */
  datatype Outcome<S> = Service(instance: S) | NoService | Unavailable(message: string)

  /** The two class-level dictionaries: built instances and recorded initialisation errors. */
  datatype Registry<S> = Registry(instances: map<string, S>, errors: map<string, string>)

  const MissingConfig: string := "Configuration manquante pour "
  const InitFailed: string := "Échec initialisation "

  /** The error text recorded when building `name` raised `cause`. */
  function Failure(name: string, cause: string): (m: string)
    ensures InitFailed <= m
  {
    InitFailed + name + ": " + cause
  }

  /** The settings each known service needs set to a non-empty value. */
  function Requirements(name: string): seq<string> {
    if name == "google_forms" then ["google_app_script_url"]
    else if name == "messenger" then ["page_token"]
    else if name == "reminder" then ["page_token", "google_app_script_url"]
    else []
  }

  /** `getattr(settings, req)` for the setting names the requirement table uses; any other
      name is not an attribute of the settings object. */
  function Setting(s: SettingsV2.Settings, req: string): Option<string> {
    if req == "page_token" then Some(s.pageToken)
    else if req == "google_app_script_url" then Some(s.googleAppScriptUrl)
    else None
  }

  /** `_check_service_requirements`: settings exist and every required setting is a
      non-empty attribute. */
  predicate RequirementsMet(settings: Option<SettingsV2.Settings>, name: string) {
    settings.Some? &&
    forall i :: 0 <= i < |Requirements(name)| ==>
      Setting(settings.value, Requirements(name)[i]).Some? && Setting(settings.value, Requirements(name)[i]).value != []
  }

  /** A service outside the table needs only settings; the reminder service needs exactly
      what the Forms and Messenger services need together; and a configuration that passes
      `validate_configuration` meets every requirement. */
  lemma RequirementsTable(settings: Option<SettingsV2.Settings>, name: string)
    ensures name !in {"google_forms", "messenger", "reminder"} ==> (RequirementsMet(settings, name) <==> settings.Some?)
    ensures RequirementsMet(settings, "reminder") <==>
      RequirementsMet(settings, "google_forms") && RequirementsMet(settings, "messenger")
    ensures RequirementsMet(settings, "google_forms") <==> settings.Some? && settings.value.googleAppScriptUrl != []
    ensures RequirementsMet(settings, "messenger") <==> settings.Some? && settings.value.pageToken != []
    ensures SettingsV2.ValidateConfiguration(settings) ==> RequirementsMet(settings, name)
  {
    if settings.Some? {
      var s := settings.value;
      assert Requirements("reminder")[0] == "page_token" && Requirements("reminder")[1] == "google_app_script_url";
      assert Requirements("google_forms")[0] == "google_app_script_url";
      assert Requirements("messenger")[0] == "page_token";
    }
  }

  /** No service name is both built and failed. */
  predicate Disjoint<S>(reg: Registry<S>) {
    reg.instances.Keys !! reg.errors.Keys
  }

  /** `get_service(name, service_class, required)` on the registry `reg`: the outcome and the
      registry afterwards. A missing requirement for a required service raises inside the
      `try` and is caught by its own handler, so the text recorded and raised is the
      initialisation-failure text wrapped around the missing-configuration text. */
  function Get<S>(reg: Registry<S>, name: string, required: bool, settings: Option<SettingsV2.Settings>,
                  build: Construction<S>): (r: (Outcome<S>, Registry<S>))
    // a built instance is returned as is, and nothing changes
    ensures name in reg.instances ==> r == (Service(reg.instances[name]), reg)
    // a recorded failure is reported without building again
    ensures name !in reg.instances && name in reg.errors ==>
      r.1 == reg && r.0 == (if required then Unavailable(name + ": " + reg.errors[name]) else NoService)
    // afterwards the name is settled one way or the other
    ensures name in r.1.instances || name in r.1.errors
    // the caller gets an instance exactly when one is stored under the name
    ensures r.0.Service? <==> name in r.1.instances
    ensures r.0.Service? ==> r.0.instance == r.1.instances[name]
    ensures r.0.Unavailable? ==> required
    ensures r.0.NoService? ==> !required
    // only the entry of this name is added
    ensures r.1.instances.Keys <= reg.instances.Keys + {name} && r.1.errors.Keys <= reg.errors.Keys + {name}
    ensures forall k :: k in reg.instances ==> k in r.1.instances && r.1.instances[k] == reg.instances[k]
    ensures forall k :: k in reg.errors ==> k in r.1.errors && r.1.errors[k] == reg.errors[k]
  {
    if name in reg.instances then (Service(reg.instances[name]), reg)
    else if name in reg.errors then
      (if required then Unavailable(name + ": " + reg.errors[name]) else NoService, reg)
    else if !RequirementsMet(settings, name) then
      var msg := if required then Failure(name, MissingConfig + name) else MissingConfig + name;
      (if required then Unavailable(msg) else NoService, reg.(errors := reg.errors[name := msg]))
    else
      match build
      case Built(i) => (Service(i), reg.(instances := reg.instances[name := i]))
      case Raised(e) =>
        var msg := Failure(name, e);
        (if required then Unavailable(msg) else NoService, reg.(errors := reg.errors[name := msg]))
  }

  /** A first request for a service fails for lack of configuration exactly when its
      requirements are not met; the construction is then never consulted, and the text
      recorded says what was missing. */
  lemma MissingConfigurationRecorded<S>(reg: Registry<S>, name: string, required: bool,
                                      settings: Option<SettingsV2.Settings>, b1: Construction<S>, b2: Construction<S>)
    requires name !in reg.instances && name !in reg.errors
    requires !RequirementsMet(settings, name)
    ensures Get(reg, name, required, settings, b1) == Get(reg, name, required, settings, b2)
    ensures !Get(reg, name, required, settings, b1).0.Service?
    ensures Get(reg, name, required, settings, b1).1.errors[name] ==
      (if required then InitFailed + name + ": " + MissingConfig + name else MissingConfig + name)
  {
  }

  /** With the configuration in place, a first request builds the service: the instance
      is cached, or the exception's text is recorded behind the initialisation prefix. */
  lemma FirstRequestBuilds<S>(reg: Registry<S>, name: string, required: bool,
                                                settings: Option<SettingsV2.Settings>, build: Construction<S>)
    requires name !in reg.instances && name !in reg.errors
    requires RequirementsMet(settings, name)
    ensures build.Built? ==> Get(reg, name, required, settings, build).0 == Service(build.instance)
    ensures build.Raised? ==>
      Get(reg, name, required, settings, build).1.errors[name] == InitFailed + name + ": " + build.message &&
      name !in Get(reg, name, required, settings, build).1.instances
  {
  }

  /** Once a request has settled a name, every later request for it returns the same
      instance, or reports the same recorded failure, whatever the settings and the
      construction are then: a failed service is not retried. */
  lemma Sticky<S>(reg: Registry<S>, name: string, required: bool, settings: Option<SettingsV2.Settings>,
                                    build: Construction<S>, required': bool, settings': Option<SettingsV2.Settings>,
                                    build': Construction<S>)
    ensures var (o, reg') := Get(reg, name, required, settings, build);
      var (o', reg'') := Get(reg', name, required', settings', build');
      reg'' == reg' &&
      (o.Service? ==> o' == o) &&
      (!o.Service? ==> !o'.Service? && (o'.Unavailable? <==> required'))
  {
    var (o, reg') := Get(reg, name, required, settings, build);
    assert name in reg'.instances || name in reg'.errors;
  }

  /** Requests keep the two dictionaries apart. */
  lemma GetKeepsDisjoint<S>(reg: Registry<S>, name: string, required: bool,
                                              settings: Option<SettingsV2.Settings>, build: Construction<S>)
    requires Disjoint(reg)
    ensures Disjoint(Get(reg, name, required, settings, build).1)
  {
  }

  const Available: string := "available"
  const ErrorPrefix: string := "error: "

  /** `get_status()` as a reference: every known name, with the error text where one is
      recorded and "available" otherwise. */
  function Status<S>(reg: Registry<S>): (m: map<string, string>)
    ensures m.Keys == reg.instances.Keys + reg.errors.Keys
  {
    map k | k in reg.instances.Keys + reg.errors.Keys ::
      if k in reg.errors then ErrorPrefix + reg.errors[k] else Available
  }

  /** In a registry whose dictionaries are apart, a name is reported "available" exactly
      when it is built, and every failed name is reported with its recorded text. */
  lemma StatusMeaning<S>(reg: Registry<S>, k: string)
    requires Disjoint(reg)
    ensures k in Status(reg) && Status(reg)[k] == Available <==> k in reg.instances
    ensures k in reg.errors ==> Status(reg)[k] == ErrorPrefix + reg.errors[k]
  {
    if k in reg.errors {
      assert (ErrorPrefix + reg.errors[k])[0] != Available[0];
    }
  }

  /** The class-level state of `ServiceFactory`. */
  class ServiceFactory<S> {
    var instances: map<string, S>
    var errors: map<string, string>

    /** The factory's state as a registry value. */
    function State(): Registry<S>
      reads this
    {
      Registry(instances, errors)
    }

    ghost predicate Valid()
      reads this
    {
      Disjoint(State())
    }

    /** Both dictionaries start empty. */
    constructor()
      ensures instances == map[] && errors == map[]
      ensures Valid()
    {
      instances := map[];
      errors := map[];
    }

    /** `get_service`. */
    method GetService(name: string, required: bool, settings: Option<SettingsV2.Settings>, build: Construction<S>)
        returns (o: Outcome<S>)
      requires Valid()
      modifies this
      ensures (o, State()) == Get(old(State()), name, required, settings, build)
      ensures Valid()
    {
      GetKeepsDisjoint(State(), name, required, settings, build);
      if name in instances {
        return Service(instances[name]);
      }
      if name in errors {
        if required {
          return Unavailable(name + ": " + errors[name]);
        }
        return NoService;
      }
      if !RequirementsMet(settings, name) {
        var msg := MissingConfig + name;
        if required {
          // the raise is caught by the handler below, which records its own text
          msg := Failure(name, msg);
          errors := errors[name := msg];
          return Unavailable(msg);
        }
        errors := errors[name := msg];
        return NoService;
      }
      match build
      case Built(i) =>
        instances := instances[name := i];
        o := Service(i);
      case Raised(e) =>
        var msg := Failure(name, e);
        errors := errors[name := msg];
        o := if required then Unavailable(msg) else NoService;
    }

    /** `reset`: both dictionaries are cleared. */
    method Reset()
      modifies this
      ensures instances == map[] && errors == map[]
      ensures Valid()
    {
      instances := map[];
      errors := map[];
    }

    /** `get_status`: every built name marked available, then every failed name marked with
        its error, which overrides. */
    method GetStatus() returns (status: map<string, string>)
      ensures status == Status(State())
    {
      status := map[];
      var todo := instances.Keys;
      while todo != {}
        invariant todo <= instances.Keys
        invariant status.Keys == instances.Keys - todo
        invariant forall k :: k in status ==> status[k] == Available
        decreases todo
      {
        var k :| k in todo;
        status := status[k := Available];
        todo := todo - {k};
      }
      todo := errors.Keys;
      while todo != {}
        invariant todo <= errors.Keys
        invariant status.Keys == instances.Keys + (errors.Keys - todo)
        invariant forall k :: k in status ==>
          status[k] == (if k in errors && k !in todo then ErrorPrefix + errors[k] else Available)
        decreases todo
      {
        var k :| k in todo;
        status := status[k := ErrorPrefix + errors[k]];
        todo := todo - {k};
      }
      assert forall k :: k in status ==> status[k] == Status(State())[k];
    }
  }
}
