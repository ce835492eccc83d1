/** The part of a DNS message the cache and the resolver look at. */
module DnsMessage {
  const UINT32: nat := 0x1_0000_0000
  type u32 = x: nat | x < 0x1_0000_0000

  const RCODE_SUCCESS: nat := 0

  // Record types, including the two that exist in the zone store only (FWD, ALIAS) and the
  // two that occur in messages only (ANY as a question, OPT as a pseudo record).
  datatype RType =
    | A | AAAA | CNAME | MX | TXT | NS | SOA | SRV | PTR | CAA | DNAME | SPF | URI
    | FWD | ALIAS | ANY | OPT
    | Other(code: string)

  datatype RR = RR(name: string, rrtype: RType, ttl: u32, data: string)
  datatype Msg = Msg(rcode: nat, answer: seq<RR>, ns: seq<RR>, extra: seq<RR>)
}
