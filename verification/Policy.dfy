/** The access policy tables (fog/policy/access_policy.py), as ASCII byte strings. */
module Policy {
  import opened Basics
  import opened Canonical

  // device and resource types
  const TEMPERATURE_SENSOR: Bytes := [116, 101, 109, 112, 101, 114, 97, 116, 117, 114, 101, 95, 115, 101, 110, 115,
                                      111, 114]
  const PRESSURE_SENSOR: Bytes := [112, 114, 101, 115, 115, 117, 114, 101, 95, 115, 101, 110, 115, 111, 114]
  const SMART_METER: Bytes := [115, 109, 97, 114, 116, 95, 109, 101, 116, 101, 114]
  const CAMERA: Bytes := [99, 97, 109, 101, 114, 97]
  const VALVE_CONTROLLER: Bytes := [118, 97, 108, 118, 101, 95, 99, 111, 110, 116, 114, 111, 108, 108, 101, 114]
  const MOTOR_CONTROLLER: Bytes := [109, 111, 116, 111, 114, 95, 99, 111, 110, 116, 114, 111, 108, 108, 101, 114]
  const PLC: Bytes := [112, 108, 99]

  // roles
  const SENSOR: Bytes := [115, 101, 110, 115, 111, 114]
  const ACTUATOR: Bytes := [97, 99, 116, 117, 97, 116, 111, 114]
  const CONTROLLER: Bytes := [99, 111, 110, 116, 114, 111, 108, 108, 101, 114]
  const MONITOR: Bytes := [109, 111, 110, 105, 116, 111, 114]

  // operations
  const READ: Bytes := [114, 101, 97, 100]
  const WRITE: Bytes := [119, 114, 105, 116, 101]
  const STOP: Bytes := [115, 116, 111, 112]
  const STREAM: Bytes := [115, 116, 114, 101, 97, 109]

  /** POLICY_TABLE: the roles allowed to perform an operation; none for an unknown resource or operation. */
  function AllowedRoles(resource: Bytes, operation: Bytes): set<Bytes> {
    if operation == READ && resource in Resources() then {SENSOR, MONITOR, CONTROLLER}
    else if operation == WRITE && resource in {TEMPERATURE_SENSOR, PRESSURE_SENSOR, SMART_METER} then {SENSOR}
    else if operation == WRITE && resource in {VALVE_CONTROLLER, MOTOR_CONTROLLER} then {ACTUATOR, CONTROLLER}
    else if operation == WRITE && resource == PLC then {CONTROLLER}
    else if operation == STOP && resource in {VALVE_CONTROLLER, MOTOR_CONTROLLER} then {ACTUATOR, CONTROLLER}
    else if operation == STOP && resource in Resources() then {CONTROLLER}
    else if operation == STREAM && resource == CAMERA then {MONITOR}
    else {}
  }

  function Resources(): set<Bytes> {
    {TEMPERATURE_SENSOR, PRESSURE_SENSOR, SMART_METER, CAMERA, VALVE_CONTROLLER, MOTOR_CONTROLLER, PLC}
  }

  predicate CheckPolicy(resource: Bytes, operation: Bytes, role: Bytes) {
    role in AllowedRoles(resource, operation)
  }

  /** ROLES_FOR_TYPE. */
  function RolesForType(deviceType: Bytes): set<Bytes> {
    if deviceType in {TEMPERATURE_SENSOR, PRESSURE_SENSOR, SMART_METER} then {SENSOR}
    else if deviceType == CAMERA then {MONITOR, SENSOR}
    else if deviceType in {VALVE_CONTROLLER, MOTOR_CONTROLLER} then {ACTUATOR}
    else if deviceType == PLC then {CONTROLLER}
    else {}
  }

  /** False when the record has no device type or no role yet. */
  predicate RoleValidForType(deviceType: Option<Bytes>, role: Option<Bytes>) {
    deviceType.Some? && role.Some? && role.value in RolesForType(deviceType.value)
  }

  predicate ProvisionalAllowed(ownType: Bytes, resource: Bytes, operation: Bytes) {
    resource == ownType && operation in {READ, WRITE}
  }

  // ---------- the tables, read the other way ----------

  lemma NamesRead()
    ensures TEMPERATURE_SENSOR == Ascii("temperature_sensor") && PRESSURE_SENSOR == Ascii("pressure_sensor")
    ensures SMART_METER == Ascii("smart_meter") && CAMERA == Ascii("camera") && PLC == Ascii("plc")
    ensures VALVE_CONTROLLER == Ascii("valve_controller") && MOTOR_CONTROLLER == Ascii("motor_controller")
    ensures SENSOR == Ascii("sensor") && ACTUATOR == Ascii("actuator")
    ensures CONTROLLER == Ascii("controller") && MONITOR == Ascii("monitor")
    ensures READ == Ascii("read") && WRITE == Ascii("write") && STOP == Ascii("stop") && STREAM == Ascii("stream")
  {
  }

  predicate IsSensor(resource: Bytes) {
    resource == TEMPERATURE_SENSOR || resource == PRESSURE_SENSOR || resource == SMART_METER
  }

  predicate IsDrive(resource: Bytes) {
    resource == VALVE_CONTROLLER || resource == MOTOR_CONTROLLER
  }

  predicate IsKnown(resource: Bytes) {
    IsSensor(resource) || IsDrive(resource) || resource == CAMERA || resource == PLC
  }

  /** What each role may do: a sensor reads everything and writes sensors; a monitor reads everything and streams
      cameras; an actuator writes and stops valves and motors; a controller reads and stops everything and writes
      valves, motors and PLCs. No other role may do anything. */
  predicate RoleMay(role: Bytes, resource: Bytes, operation: Bytes) {
    || (role == SENSOR && ((operation == READ && IsKnown(resource)) || (operation == WRITE && IsSensor(resource))))
    || (role == MONITOR && ((operation == READ && IsKnown(resource)) || (operation == STREAM && resource == CAMERA)))
    || (role == ACTUATOR && (operation == WRITE || operation == STOP) && IsDrive(resource))
    || (role == CONTROLLER && (|| ((operation == READ || operation == STOP) && IsKnown(resource))
                               || (operation == WRITE && (IsDrive(resource) || resource == PLC))))
  }

  lemma PolicyByRole(role: Bytes, resource: Bytes, operation: Bytes)
    ensures CheckPolicy(resource, operation, role) <==> RoleMay(role, resource, operation)
  {
    NamesDiffer();
  }

  lemma NamesDiffer()
    ensures READ != WRITE && READ != STOP && READ != STREAM && WRITE != STOP && WRITE != STREAM && STOP != STREAM
    ensures SENSOR != ACTUATOR && SENSOR != CONTROLLER && SENSOR != MONITOR
    ensures ACTUATOR != CONTROLLER && ACTUATOR != MONITOR && CONTROLLER != MONITOR
    ensures forall r :: IsSensor(r) ==> !IsDrive(r) && r != CAMERA && r != PLC
    ensures forall r :: IsDrive(r) ==> r != CAMERA && r != PLC
    ensures CAMERA != PLC
  {
    assert READ[0] != WRITE[0] && READ[0] != STOP[0] && WRITE[0] != STOP[0] && |STOP| != |STREAM|;
    assert SENSOR[0] != ACTUATOR[0] && SENSOR[0] != CONTROLLER[0] && SENSOR[0] != MONITOR[0];
    assert |TEMPERATURE_SENSOR| == 18 && |PRESSURE_SENSOR| == 15 && |SMART_METER| == 11;
    assert |VALVE_CONTROLLER| == |MOTOR_CONTROLLER| == 16 && |CAMERA| == 6 && |PLC| == 3;
  }

  /** Which roles a device of each type may hold. */
  predicate TypeHolds(deviceType: Bytes, role: Bytes) {
    || (role == SENSOR && (IsSensor(deviceType) || deviceType == CAMERA))
    || (role == MONITOR && deviceType == CAMERA)
    || (role == ACTUATOR && IsDrive(deviceType))
    || (role == CONTROLLER && deviceType == PLC)
  }

  lemma RolesByType(deviceType: Bytes, role: Bytes)
    ensures RoleValidForType(Some(deviceType), Some(role)) <==> TypeHolds(deviceType, role)
    ensures !RoleValidForType(None, Some(role)) && !RoleValidForType(Some(deviceType), None)
  {
    NamesDiffer();
  }

  /** What a device may do on its own type before it is registered: sensors read and write, cameras read, valves and
      motors write, PLCs read and write. */
  predicate TypeMay(deviceType: Bytes, operation: Bytes) {
    (operation == READ && !IsDrive(deviceType)) || (operation == WRITE && deviceType != CAMERA)
  }

  lemma ProvisionalByType(deviceType: Bytes, role: Bytes, resource: Bytes, operation: Bytes)
    requires RoleValidForType(Some(deviceType), Some(role))
    ensures ProvisionalAllowed(deviceType, resource, operation) && CheckPolicy(resource, operation, role) <==>
              resource == deviceType && TypeMay(deviceType, operation)
  {
    RolesByType(deviceType, role);
    NamesDiffer();
    PolicyByRole(role, resource, operation);
  }

  /** Whatever the policy can allow is named without the message separator. */
  lemma AllowedNamesHaveNoSeparator(resource: Bytes, operation: Bytes, role: Bytes)
    requires CheckPolicy(resource, operation, role)
    ensures SEPARATOR !in resource && SEPARATOR !in operation
  {
  }
}
