/** The domain constant that opens each kind of transcript. */
module Domains {
  import opened Basics
  import opened Framing
  import opened Utf8

  datatype Domain =
    | Manifest | Authorization | AuthorizationProof | Effect | Address | Attachment | AttachmentSummary
    | EndpointHost | AccountSnapshot | ConfigCas | CleanupDescriptor | OwnerKey
    | AccountBinding | ConfigLocation

  function Name(d: Domain): (s: string)
    ensures 10 < |s| < 32 && 0 < s[6] as int < 128
  {
    match d
    case Manifest => "KIRJE-MANIFEST-V1"
    case Authorization => "KIRJE-AUTHORIZATION-V1"
    case AuthorizationProof => "KIRJE-AUTHORIZATION-PROOF-V1"
    case Effect => "KIRJE-EFFECT-V1"
    case Address => "KIRJE-ADDRESS-V1"
    case Attachment => "KIRJE-ATTACHMENT-V1"
    case AttachmentSummary => "KIRJE-ATTACHMENT-SUMMARY-V1"
    case EndpointHost => "KIRJE-ENDPOINT-V1"
    case AccountSnapshot => "KIRJE-ACCOUNT-SNAPSHOT-V1"
    case ConfigCas => "KIRJE-CONFIG-CAS-V1"
    case CleanupDescriptor => "KIRJE-CLEANUP-DESCRIPTOR-V1"
    case OwnerKey => "KIRJE-OWNER-KEY-V1"
    case AccountBinding => "KIRJE-ACCOUNT-BINDING-V1"
    case ConfigLocation => "KIRJE-CONFIG-LOCATION-V1"
  }

  function Bytes(d: Domain): (b: seq<byte>)
    ensures IsDomain(b)
    ensures |b| == |Name(d)| + 1 <= 32
  {
    Ascii(Name(d)) + [0]
  }

  /** Length and first letter tell all the names apart. */
  lemma NamesDiffer(d1: Domain, d2: Domain)
    requires |Name(d1)| == |Name(d2)| && Name(d1)[6] == Name(d2)[6]
    ensures d1 == d2
  {
  }

  lemma BytesDiffer(d1: Domain, d2: Domain)
    requires |Bytes(d1)| == |Bytes(d2)| && Bytes(d1)[6] == Bytes(d2)[6]
    ensures d1 == d2
  {
    hide Name;
    NamesDiffer(d1, d2);
  }

  /** No byte string is a transcript of two kinds: whatever fields follow, two
      transcripts under different domain constants have different bytes. */
  lemma TranscriptsNeverCollide(d1: Domain, d2: Domain, fields1: seq<Field>, fields2: seq<Field>)
    requires Transcript(Bytes(d1), fields1) == Transcript(Bytes(d2), fields2)
    ensures d1 == d2
  {
    hide Bytes;
    var bytes := Transcript(Bytes(d1), fields1);
    assert Bytes(d1) <= bytes && Bytes(d2) <= bytes;
    DomainsSeparate(Bytes(d1), Bytes(d2), bytes);
    BytesDiffer(d1, d2);
  }
}
