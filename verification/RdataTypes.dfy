/** Numbers of record types, from `dns/rdatatype.py`. */
module RdataTypes {
  const CNAME := 5
  const SOA := 6
  const KEY := 25
  const NXT := 30
  const DNAME := 39
  const OPT := 41
  const RRSIG := 46
  const NSEC := 47
  const NSEC3 := 50
  const TSIG := 250

  /** The types of which there can only be one item. */
  predicate IsSingleton(rdtype: nat) {
    rdtype in {CNAME, SOA, NXT, DNAME, NSEC}
  }
}
