/** Zones and records as they are stored. */
module ZoneData {
  import opened Common
  import opened DnsMessage

  // extra stands for priority, weight, port and tag, which no operation here looks at.
  datatype Record = Record(id: int, name: string, rtype: RType, ttl: int, value: string, extra: string)

  datatype SoaRecord = SoaRecord(mname: string, rname: string, serial: u32, refresh: int, retry: int, expire: int, minimum: int)

  datatype Zone = Zone(domain: string, view: string, ttl: int, ttlOverride: int, records: seq<Record>, soa: Option<SoaRecord>)
}
