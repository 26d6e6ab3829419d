/** The values the record formatter reads: one DNS resource record, as the
    DNS client library hands it over, and the two output flags. */
module Records {
  import opened Options

  /** The record's time to live is an unsigned 32-bit count of seconds. */
  newtype u32 = x: int | 0 <= x < 0x1_0000_0000

  /** Raw type code of a record type the library does not know. */
  newtype u16 = x: int | 0 <= x < 0x1_0000

  /** The library's record-type tag.  Every variant the colour table names
      has a constructor of its own, and so does CNAME, which the table does
      not name; `Other` stands for any further variant of the library's
      enumeration and carries the text it displays as. */
  datatype RecordType =
    | A | AAAA | ANAME | ANY | AXFR | CAA | CDS | CDNSKEY | CNAME | CSYNC
    | DNSKEY | DS | HINFO | HTTPS | IXFR | KEY | MX | NAPTR | NS | NSEC
    | NSEC3 | NSEC3PARAM | NULL | OPENPGPKEY | OPT | PTR | RRSIG | SIG | SOA
    | SRV | SSHFP | SVCB | TLSA | TSIG | TXT | Unknown(code: u16) | ZERO
    | Other(mnemonic: string)

  /** One resource record.  `name` is the text the library displays for the
      owner name, `data` the text it displays for the record data, absent
      when the record carries none. */
  datatype Record = Record(recordType: RecordType, name: string, ttl: u32, data: Option<string>)

  /** `format_seconds`: print the TTL as days, hours, minutes and seconds
      rather than as a bare count; `ansi`: colour the type and the name. */
  datatype OutputConfig = OutputConfig(formatSeconds: bool, ansi: bool)

  /** The text the library displays for a record type: its mnemonic. */
  function Mnemonic(t: RecordType): string
  {
    match t
    case A => "A"
    case AAAA => "AAAA"
    case ANAME => "ANAME"
    case ANY => "ANY"
    case AXFR => "AXFR"
    case CAA => "CAA"
    case CDS => "CDS"
    case CDNSKEY => "CDNSKEY"
    case CNAME => "CNAME"
    case CSYNC => "CSYNC"
    case DNSKEY => "DNSKEY"
    case DS => "DS"
    case HINFO => "HINFO"
    case HTTPS => "HTTPS"
    case IXFR => "IXFR"
    case KEY => "KEY"
    case MX => "MX"
    case NAPTR => "NAPTR"
    case NS => "NS"
    case NSEC => "NSEC"
    case NSEC3 => "NSEC3"
    case NSEC3PARAM => "NSEC3PARAM"
    case NULL => "NULL"
    case OPENPGPKEY => "OPENPGPKEY"
    case OPT => "OPT"
    case PTR => "PTR"
    case RRSIG => "RRSIG"
    case SIG => "SIG"
    case SOA => "SOA"
    case SRV => "SRV"
    case SSHFP => "SSHFP"
    case SVCB => "SVCB"
    case TLSA => "TLSA"
    case TSIG => "TSIG"
    case TXT => "TXT"
    case Unknown(_) => "Unknown"
    case ZERO => "ZERO"
    case Other(m) => m
  }
}
