/**
 * The OpenMediaVault configuration flow: the user step that validates a
 * submitted name/host/username/password against the existing config
 * entries and a connection test, and either creates an entry or shows the
 * form again with the errors it collected.
 */
module ConfigFlow {
  import opened Wrappers

  /** The host's configuration keys. */
  const ConfName: string := "name"
  const ConfHost: string := "host"
  const ConfUsername: string := "username"
  const ConfPassword: string := "password"

  /** The error key and message for a name that is already configured. */
  const ErrorBase: string := "base"
  const NameExists: string := "name_exists"

  /** The id of the only step of the flow. */
  const StepId: string := "user"

  /** What the user submits (and what a config entry stores). */
  datatype UserInput = UserInput(name: string, host: string, username: string, password: string)

  /** A config entry of the host, with the integration domain it belongs to. */
  datatype ConfigEntry = ConfigEntry(domain: string, data: UserInput)

  /** What the API client is built from for the connection test. */
  datatype Credentials = Credentials(host: string, username: string, password: string)

  /** The outcome of the connection test: whether it connected, and the client's error text. */
  datatype ConnectResult = ConnectResult(connected: bool, error: string)

  /** A required string field of the form, with its pre-filled default. */
  datatype Field = Required(key: string, default: string)

  /** What a step hands back to the host. */
  datatype FlowResult =
    | CreateEntry(title: string, data: UserInput)
    | ShowForm(stepId: string, schema: seq<Field>, errors: map<string, string>)

  /** The names of the config entries of `domain`. */
  function ConfiguredInstances(entries: seq<ConfigEntry>, domain: string): (names: set<string>)
    ensures forall i :: 0 <= i < |entries| && entries[i].domain == domain ==> entries[i].data.name in names
    ensures forall n :: n in names ==>
              exists i :: 0 <= i < |entries| && entries[i].domain == domain && entries[i].data.name == n
  {
    set e | e in entries && e.domain == domain :: e.data.name
  }

  function CredentialsOf(input: UserInput): Credentials
  {
    Credentials(input.host, input.username, input.password)
  }

  /** The keys of the form's fields, in order. */
  const FieldKeys: seq<string> := [ConfName, ConfHost, ConfUsername, ConfPassword]

  /** The default of the first field named `key`, if there is one. */
  function DefaultOf(schema: seq<Field>, key: string): Option<string>
  {
    if schema == [] then None
    else if schema[0].key == key then Some(schema[0].default)
    else DefaultOf(schema[1..], key)
  }

  /** The input a form pre-fills, read back from its four fields. */
  function FormDefaults(schema: seq<Field>): Option<UserInput>
  {
    match (DefaultOf(schema, ConfName), DefaultOf(schema, ConfHost),
           DefaultOf(schema, ConfUsername), DefaultOf(schema, ConfPassword))
    case (Some(n), Some(h), Some(u), Some(p)) => Some(UserInput(n, h, u, p))
    case _ => None
  }

  /** The form: four required string fields, name, host, username and password, pre-filled from `input`. */
  function FormSchema(input: UserInput): (schema: seq<Field>)
    ensures |schema| == |FieldKeys|
    ensures forall i :: 0 <= i < |schema| ==> schema[i].key == FieldKeys[i]
    ensures FormDefaults(schema) == Some(input)
  {
    var schema := [Required(ConfName, input.name),
                   Required(ConfHost, input.host),
                   Required(ConfUsername, input.username),
                   Required(ConfPassword, input.password)];
    assert ConfName[0] == 'n' && ConfHost[0] == 'h' && ConfUsername[0] == 'u' && ConfPassword[0] == 'p';
    assert DefaultOf(schema[3..], ConfPassword) == Some(input.password);
    assert DefaultOf(schema[2..], ConfUsername) == Some(input.username);
    assert DefaultOf(schema[2..], ConfPassword) == Some(input.password);
    assert DefaultOf(schema[1..], ConfPassword) == Some(input.password);
    assert DefaultOf(schema[1..], ConfUsername) == Some(input.username);
    assert DefaultOf(schema, ConfName) == Some(input.name);
    assert DefaultOf(schema, ConfHost) == Some(input.host);
    assert DefaultOf(schema, ConfUsername) == Some(input.username);
    assert DefaultOf(schema, ConfPassword) == Some(input.password);
    schema
  }

  /** Show the form of the user step, pre-filled from `input`, with `errors`. */
  function ShowConfigForm(input: UserInput, errors: map<string, string>): (r: FlowResult)
    ensures r.ShowForm? && r.stepId == StepId && r.errors == errors
    ensures |r.schema| == |FieldKeys| && FormDefaults(r.schema) == Some(input)
  {
    ShowForm(StepId, FormSchema(input), errors)
  }

  /**
   * The user step as a decision: with no input, the form pre-filled with
   * the defaults and no errors; with input, an entry exactly when the name is
   * new and the connection test succeeds, else the form pre-filled with the
   * input and one error per failed check.
   */
  function UserStep(userInput: Option<UserInput>, configured: set<string>,
                    connect: Credentials -> ConnectResult, defaults: UserInput): (r: FlowResult)
    ensures userInput.None? ==> r == ShowForm(StepId, FormSchema(defaults), map[])
    ensures userInput.Some? ==>
              var u, conn := userInput.value, connect(CredentialsOf(userInput.value));
              && (r.CreateEntry? <==> u.name !in configured && conn.connected)
              && (r.CreateEntry? ==> r.title == u.name && r.data == u)
              && (r.ShowForm? ==>
                    && r.stepId == StepId
                    && FormDefaults(r.schema) == Some(u)
                    && (ErrorBase in r.errors <==> u.name in configured)
                    && (ErrorBase in r.errors ==> r.errors[ErrorBase] == NameExists)
                    && (ConfHost in r.errors <==> !conn.connected)
                    && (ConfHost in r.errors ==> r.errors[ConfHost] == conn.error)
                    && (forall key :: key in r.errors ==> key == ErrorBase || key == ConfHost))
  {
    match userInput
    case None => ShowConfigForm(defaults, map[])
    case Some(u) =>
      var conn := connect(CredentialsOf(u));
      var errors := (if u.name in configured then map[ErrorBase := NameExists] else map[])
                    + (if conn.connected then map[] else map[ConfHost := conn.error]);
      assert ErrorBase[0] != ConfHost[0];
      assert (ErrorBase in errors <==> u.name in configured) && (ConfHost in errors <==> !conn.connected);
      assert errors == map[] <==> u.name !in configured && conn.connected;
      if errors == map[] then CreateEntry(u.name, u) else ShowConfigForm(u, errors)
  }

  /**
   * The user step: collect the errors of the two checks, then create the
   * entry or show the form again. `connect` stands for the API client's
   * connection test; `attempt` holds the credentials it was run with.
   */
  method StepUser(userInput: Option<UserInput>, entries: seq<ConfigEntry>, domain: string,
                  connect: Credentials -> ConnectResult, defaults: UserInput)
    returns (r: FlowResult, attempt: Option<Credentials>)
    ensures r == UserStep(userInput, ConfiguredInstances(entries, domain), connect, defaults)
    ensures attempt == if userInput.Some? then Some(CredentialsOf(userInput.value)) else None
  {
    var errors: map<string, string> := map[];
    attempt := None;
    if userInput.Some? {
      var u := userInput.value;
      if u.name in ConfiguredInstances(entries, domain) {
        errors := errors[ErrorBase := NameExists];
      }
      var api := CredentialsOf(u);
      attempt := Some(api);
      var conn := connect(api);
      if !conn.connected {
        errors := errors[ConfHost := conn.error];
      }
      if errors == map[] {
        r := CreateEntry(u.name, u);
        return;
      }
      r := ShowConfigForm(u, errors);
      return;
    }
    r := ShowConfigForm(defaults, errors);
  }

  /** The import step hands its input to the user step and returns what that returns. */
  method StepImport(userInput: Option<UserInput>, entries: seq<ConfigEntry>, domain: string,
                    connect: Credentials -> ConnectResult, defaults: UserInput)
    returns (r: FlowResult, attempt: Option<Credentials>)
    ensures r == UserStep(userInput, ConfiguredInstances(entries, domain), connect, defaults)
    ensures attempt == if userInput.Some? then Some(CredentialsOf(userInput.value)) else None
  {
    r, attempt := StepUser(userInput, entries, domain, connect, defaults);
  }

  /**
   * Once an entry is created, submitting the same name again is refused
   * with name_exists, whatever the other fields and the connection test say.
   */
  lemma SameNameRefusedAfterCreate(entries: seq<ConfigEntry>, domain: string, u: UserInput, again: UserInput,
                                   connect: Credentials -> ConnectResult, defaults: UserInput)
    requires again.name == u.name
    ensures var r := UserStep(Some(again), ConfiguredInstances(entries + [ConfigEntry(domain, u)], domain),
                              connect, defaults);
            r.ShowForm? && ErrorBase in r.errors && r.errors[ErrorBase] == NameExists
  {
    var all := entries + [ConfigEntry(domain, u)];
    assert all[|entries|].domain == domain && all[|entries|].data.name == u.name;
  }
}
