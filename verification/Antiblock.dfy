/** The anti-blocking posture (internal/control/antiblock). */
module Antiblock {

  datatype GatewayMode = Auto | Builtin | External

  /** The settings the mirror list and the firewall depend on, as Normalize leaves them. */
  datatype Config = Config(
    edgeDomain: string,
    edgePort: nat,
    gatewayMode: GatewayMode,
    subBaseURL: string,
    mirrors: seq<string>,
    stealth: bool
  )

  function GatewayPort(c: Config): nat {
    if c.edgePort == 0 then 443 else c.edgePort
  }
}
