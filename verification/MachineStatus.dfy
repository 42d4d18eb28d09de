/** The status of a machine, which the handlers and both sweeps share. */
module MachineStatus {
  datatype Status = Pending | Active | Disabled
}
