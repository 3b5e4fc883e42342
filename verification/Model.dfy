/** The rows the control plane stores (internal/control/model/model.go). */
module Model {
  import opened Addresses
  import opened Settings

  datatype Client = Client(
    id: nat,
    email: string,
    uuid: string,
    enabled: bool,
    trafficUp: int,
    trafficDown: int,
    quotaBytes: int,
    expiryAt: int
  )

  datatype Inbound = Inbound(
    id: nat,
    nodeId: nat,
    tag: string,
    typ: Protocol,
    listen: Text,
    port: int,
    network: string,
    remark: string,
    enabled: bool,
    settings: Stored,
    subscriptionHost: Text,
    clients: seq<Client>
  ) {
    /** The settings as every reader that ignores decoding errors sees them. */
    function Fields(): Fields { Decoded(settings) }

    predicate Flag(k: Key) { Truthy(Get(Fields(), k)) }
  }
}
