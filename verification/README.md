# OpenMediaVault integration for Home Assistant — a Dafny model

This project models the core of the OpenMediaVault custom integration for
Home Assistant and proves properties of that model. The model covers two
parts.

- **The binary-sensor platform.**
  - A fixed table of three sensors: pending package updates, pending reboot, and unsaved configuration.
  - The reconciliation pass run on every controller update. It keeps one entity per table row in a per-config-entry registry keyed `"<inst>-<sensor>"`. It asks the host to refresh the entities that already exist and are enabled. It creates the missing ones and hands them to the host in one batch.
  - The read-only projections each entity exposes: name, unique id, device info and on/off value.
- **The configuration flow.**
  - The names already configured for the domain.
  - The user step. It validates a submitted name, host, username and password against the existing entries and a connection test. It then either creates an entry or shows the form again with its errors.
  - The import step, which delegates to the user step.
  - The four-field form.

The model is split into three modules:

- `Wrappers` (`wrappers.dfy`): `Option` and `Result`.
- `BinarySensor` (`binary_sensor.dfy`).
- `ConfigFlow` (`config_flow.dfy`).

The sensor registry is a class. Its `sensors` field is a map, and the
reconciliation method updates it in place. The method is proved against
specification functions over the old registry:

- `Missing`: which sensors a pass creates.
- `Scheduled`: which updates a pass schedules.
- `Reconciled`: the registry after the pass.
- `UpdateEffects`: what the pass asks of the host.

Lemmas then prove what the source promises about those functions.

Host calls are modelled as data:

- "schedule a state update for entity X" and "add these entities" are `Effect` values that the pass returns in order;
- the flow's two outcomes are `FlowResult` values.

The connection test is a function parameter from credentials to an outcome
(connected or not, plus the client's error text).

## Model

| member | source | states |
|---|---|---|
| BinarySensor.SensorKeysDistinct | custom_components/openmediavault/binary_sensor.py:26-45 | the sensor table has exactly three keys, pairwise different |
| BinarySensor.NewEntity | custom_components/openmediavault/binary_sensor.py:84-86 | an entity built for a sensor belongs to that instance and sensor and is reported enabled |
| BinarySensor.ItemId | custom_components/openmediavault/binary_sensor.py:77 | the registry key is the instance name, a dash, then the sensor key, and nothing else |
| BinarySensor.ItemIdInjective | custom_components/openmediavault/binary_sensor.py:77 | within one instance, two sensors with the same registry key `"<inst>-<sensor>"` are the same sensor |
| BinarySensor.ItemIdsSnoc | custom_components/openmediavault/binary_sensor.py:76-77 | the registry keys of a table extended by one sensor are the old keys followed by the new sensor's key |
| BinarySensor.MissingExactlyAbsent | custom_components/openmediavault/binary_sensor.py:79-87 | a pass creates a sensor exactly when it is in the table and its registry key is not yet known; it creates none exactly when every table sensor is already registered |
| BinarySensor.MissingInTableOrder | custom_components/openmediavault/binary_sensor.py:76-87 | the created sensors are a subsequence of the table, in table order |
| BinarySensor.ScheduledExactlyEnabled | custom_components/openmediavault/binary_sensor.py:79-82 | an update is scheduled for a registry key exactly when it belongs to a table sensor, is already in the registry, and its entity is enabled |
| BinarySensor.ScheduledInTableOrder | custom_components/openmediavault/binary_sensor.py:76-81 | the scheduled updates are a subsequence of the table's registry keys: in table order, at most one per table sensor |
| BinarySensor.NewEntriesExactly | custom_components/openmediavault/binary_sensor.py:84-86 | each created sensor is stored under its own registry key as a fresh entity of that instance and sensor, and nothing else is stored |
| BinarySensor.ItemIdsOfSubset | custom_components/openmediavault/binary_sensor.py:77 | registry keys of a subset of sensors are registry keys of the whole set |
| BinarySensor.ReconciledCoversTable | custom_components/openmediavault/binary_sensor.py:76-87 | after a pass every table sensor has an entry, and every entry either existed before or belongs to a table sensor |
| BinarySensor.ReconciledKeepsExisting | custom_components/openmediavault/binary_sensor.py:79-86 | a pass leaves existing entries untouched and stores a fresh entity for each absent table sensor |
| BinarySensor.BatchKeepsOrder | custom_components/openmediavault/binary_sensor.py:87 | a subsequence of sensors yields a subsequence of entities, in the same order |
| BinarySensor.NewBatchIsAbsentInTableOrder | custom_components/openmediavault/binary_sensor.py:84-90 | the batch holds the entity of a sensor exactly when the sensor was in the table and absent from the registry, and its entities come in table order |
| BinarySensor.NewSensorsNotScheduled | custom_components/openmediavault/binary_sensor.py:79-87 | an entity created in this pass gets no update request; every update request is for an entity that existed before and is enabled |
| BinarySensor.AddEntitiesAtMostOnce | custom_components/openmediavault/binary_sensor.py:89-90 | the batch-add is requested at most once, as the last request, never with an empty batch, and exactly when some table sensor was absent |
| BinarySensor.UpdateIdempotent | custom_components/openmediavault/binary_sensor.py:72-90 | a second pass over the reconciled registry creates nothing, leaves the registry as it is, and only schedules updates |
| BinarySensor.FirstPassFromEmpty | custom_components/openmediavault/binary_sensor.py:76-87 | on an empty registry every table sensor is created and no update is scheduled |
| BinarySensor.FirstUpdateAddsAll | custom_components/openmediavault/binary_sensor.py:72-90 | a pass on an empty registry stores one fresh entity per table sensor and makes exactly one request: add all of them in table order |
| BinarySensor.SensorRegistry.constructor | custom_components/openmediavault/binary_sensor.py:55 | a new registry is empty |
| BinarySensor.SensorRegistry.UpdateItems | custom_components/openmediavault/binary_sensor.py:72-90 | the loop over the table leaves the registry equal to `Reconciled` of the old registry and returns exactly the requests `UpdateEffects` describes |
| BinarySensor.NotYetCreated | custom_components/openmediavault/binary_sensor.py:76-84 | with distinct table keys, the sensor at position i has not been created by the earlier iterations of the loop |
| BinarySensor.PrefixStep | custom_components/openmediavault/binary_sensor.py:79-87 | one more loop iteration appends at most the current sensor to the created list and at most its key to the scheduled list, according to the registry before the pass |
| BinarySensor.CreatedStep | custom_components/openmediavault/binary_sensor.py:84-87 | creating one more sensor adds its entity to the registry under its key and appends it to the batch |
| BinarySensor.ScheduledStep | custom_components/openmediavault/binary_sensor.py:80-81 | scheduling one more key appends exactly one update request |
| BinarySensor.SetupEntry | custom_components/openmediavault/binary_sensor.py:51-65 | setting up a config entry yields a fresh registry holding one entity per table sensor and requests a single batch-add of all of them |
| BinarySensor.Lower | custom_components/openmediavault/binary_sensor.py:124 | lower-casing keeps the length, leaves no upper-case letter, keeps every other character and maps each upper-case letter to its lower-case letter |
| BinarySensor.LowerAppend | custom_components/openmediavault/binary_sensor.py:124 | lower-casing distributes over concatenation |
| BinarySensor.UniqueId | custom_components/openmediavault/binary_sensor.py:122-124 | the unique id is the lower-cased registry key of the entity |
| BinarySensor.LowerIdempotent | custom_components/openmediavault/binary_sensor.py:124 | lower-casing twice is lower-casing once |
| BinarySensor.UniqueIdIgnoresCase | custom_components/openmediavault/binary_sensor.py:122-124 | the unique id does not depend on the case of the instance name or sensor key, and contains no upper-case letter |
| BinarySensor.SensorUniqueIdsDistinct | custom_components/openmediavault/binary_sensor.py:122-124 | the three sensors of one instance have pairwise different unique ids |
| BinarySensor.Name | custom_components/openmediavault/binary_sensor.py:111-114 | the name is the instance name, one space, then the descriptor's label |
| BinarySensor.SensorNamesDistinct | custom_components/openmediavault/binary_sensor.py:111-114 | the three sensors of one instance have pairwise different names |
| BinarySensor.GetDeviceInfo | custom_components/openmediavault/binary_sensor.py:131-143 | device info succeeds exactly when the descriptor has a group, and then gives manufacturer "OpenMediaVault", name `"<inst> <group>"` and the single identifier (domain, inst, "sensor", group); without a group it fails with a missing-key error for "group" |
| BinarySensor.SensorsShareOneDevice | custom_components/openmediavault/binary_sensor.py:131-143 | all three sensors of one instance belong to the device `"<inst> System"` with the same identifier |
| BinarySensor.IsOn | custom_components/openmediavault/binary_sensor.py:152-159 | the value is the descriptor's field of the data when present, and false when it is absent |
| BinarySensor.IsOnAfterWrite | custom_components/openmediavault/binary_sensor.py:152-159 | writing a value into the sensor's field and reading the sensor gives that value back |
| BinarySensor.IsOnIgnoresOtherFields | custom_components/openmediavault/binary_sensor.py:152-159 | writing or removing any other field does not change the sensor's value |
| BinarySensor.HwinfoScenario | custom_components/openmediavault/binary_sensor.py:152-159 | with updates pending, no reboot required and no configDirty field, the three sensors read true, false and false |
| ConfigFlow.ConfiguredInstances | custom_components/openmediavault/config_flow.py:33-38 | a name is configured exactly when some config entry of the domain carries it |
| ConfigFlow.FormSchema | custom_components/openmediavault/config_flow.py:95-108 | the form has four fields, keyed name, host, username and password in that order, and reading their defaults back gives exactly the input the form was built from |
| ConfigFlow.ShowConfigForm | custom_components/openmediavault/config_flow.py:95-108 | the shown form is the "user" step, carries the given errors unchanged, and has the four fields pre-filled with exactly the given input |
| ConfigFlow.UserStep | custom_components/openmediavault/config_flow.py:57-90 | without input: the form pre-filled with the defaults and no errors. With input: an entry titled with the name and holding the input exactly when the name is new and the connection succeeds. Otherwise the form pre-filled with the input; "base" = "name_exists" is present exactly when the name is taken, "host" = the client's error exactly when the connection fails, and nothing else |
| ConfigFlow.StepUser | custom_components/openmediavault/config_flow.py:57-90 | the step that accumulates errors returns exactly the `UserStep` decision, and runs the connection test with the submitted host, username and password whenever input is given, even when the name is already taken |
| ConfigFlow.StepImport | custom_components/openmediavault/config_flow.py:53-55 | the import step returns what the user step returns for the same input |
| ConfigFlow.SameNameRefusedAfterCreate | custom_components/openmediavault/config_flow.py:57-80 | once an entry with a name exists in the domain, any later submission of that name shows the form with "base" = "name_exists" |

## Left out

- The controller, the OpenMediaVault API client and the network are not modelled. The connection test is a parameter (`connect`), and the controller's data for a path is a map parameter of `IsOn`.
- Entity construction reads `omv_controller.data[path]`, which fails if the controller has no data for the path. That read, and the entity keeping an alias to the controller's live dictionary, are not modelled. An entity is the record (instance, sensor, enabled). Object identity is not modelled: an untouched entry and a freshly built entity with the same fields are indistinguishable, so `ReconciledKeepsExisting` states that existing entries keep their value, not that they stay the same object.
- An entity's `enabled` flag is owned by the host's entity registry. A freshly built entity is modelled as enabled. A disabled entity can only appear in a registry given to `UpdateItems`, not be produced by it.
- Registration of the update listener with the host dispatcher (`async_dispatcher_connect`, `listeners.append`) is not modelled. `SetupEntry` models the first pass it triggers, and later passes are further calls of `UpdateItems`.
- The host calls `async_schedule_update_ha_state` and `async_add_entities(new, True)` are returned as `Effect` values, not performed. The host's handling of them is not modelled.
- `available` (which asks the controller whether it is connected), `device_state_attributes` (the attribution constant comes from const.py, which is not part of this model), the empty `async_update`, and the debug logging of `async_added_to_hass` and of the loop are not modelled.
- BinarySensor.Lower: only ASCII letters A–Z are lower-cased. Python's `str.lower` also maps other Unicode upper-case letters.
- BinarySensor.IsOn: returns the stored value as it is. How the host interprets a non-boolean value as on/off is not modelled.
- `DOMAIN` and the `DEFAULT_*` form defaults come from const.py, which is not part of this model. They are parameters (`domain`, `defaults`).
- ConfigFlow.StepUser: the submitted input is a record with all four fields. A submission missing one of them, which would fail with a missing-key error, is not modelled.
- ConfigFlow.StepImport: imported input is not checked against the form schema, yet the source stores the whole dictionary as the entry's data. Extra keys and non-string values that the source would store are not represented, because the input and the entry data are a record of four strings.
- The schema's validation of submitted values as strings, and the host's rendering of the form, are left to the host.

The model follows the code where it reads oddly. `device_info` builds the device name from the descriptor's group
before it checks whether the descriptor has a group. A descriptor without a
group would therefore fail with a missing-key error rather than yield a
device without identifiers. `GetDeviceInfo` models exactly that. All three
rows of the shipped table have a group, so the shipped sensors never reach
the failure (`SensorsShareOneDevice`).
