/**
  The data model of the briefing form: the record of twelve string fields,
  the partial map of field errors, and the option lists of the two select
  inputs.
 */
module Types {
  import opened JsString

  /** The twelve keys of FormData, in declaration order. */
  datatype Field =
    | CompanyName | Segment | Location | ServiceType | Whatsapp | Email
    | Hours | Tagline | Services | Differential | HasLogo | Colors

  /** FormData: every field holds a string; nothing restricts the two select fields. */
  datatype FormData = FormData(
    companyName: JSString,
    segment: JSString,
    location: JSString,
    serviceType: JSString,
    whatsapp: JSString,
    email: JSString,
    hours: JSString,
    tagline: JSString,
    services: JSString,
    differential: JSString,
    hasLogo: JSString,
    colors: JSString)
  {
    /** `{ ...this, [f]: v }`: the record with field `f` replaced by `v`. */
    function With(f: Field, v: JSString): (r: FormData)
      ensures Get(r, f) == v
      ensures forall g :: g != f ==> Get(r, g) == Get(this, g)
    {
      match f
      case CompanyName => this.(companyName := v)
      case Segment => this.(segment := v)
      case Location => this.(location := v)
      case ServiceType => this.(serviceType := v)
      case Whatsapp => this.(whatsapp := v)
      case Email => this.(email := v)
      case Hours => this.(hours := v)
      case Tagline => this.(tagline := v)
      case Services => this.(services := v)
      case Differential => this.(differential := v)
      case HasLogo => this.(hasLogo := v)
      case Colors => this.(colors := v)
    }
  }

  /** `d[f]`: the value of field `f`. */
  function Get(d: FormData, f: Field): JSString {
    match f
    case CompanyName => d.companyName
    case Segment => d.segment
    case Location => d.location
    case ServiceType => d.serviceType
    case Whatsapp => d.whatsapp
    case Email => d.email
    case Hours => d.hours
    case Tagline => d.tagline
    case Services => d.services
    case Differential => d.differential
    case HasLogo => d.hasLogo
    case Colors => d.colors
  }

  /** The property name of a field in the TypeScript record. */
  function Key(f: Field): string {
    match f
    case CompanyName => "companyName"
    case Segment => "segment"
    case Location => "location"
    case ServiceType => "serviceType"
    case Whatsapp => "whatsapp"
    case Email => "email"
    case Hours => "hours"
    case Tagline => "tagline"
    case Services => "services"
    case Differential => "differential"
    case HasLogo => "hasLogo"
    case Colors => "colors"
  }

  const AllFields: seq<Field> :=
    [CompanyName, Segment, Location, ServiceType, Whatsapp, Email,
     Hours, Tagline, Services, Differential, HasLogo, Colors]

  /** The place of a field in declaration order. */
  function Position(f: Field): (i: nat)
    ensures i < |AllFields| && AllFields[i] == f
  {
    match f
    case CompanyName => 0
    case Segment => 1
    case Location => 2
    case ServiceType => 3
    case Whatsapp => 4
    case Email => 5
    case Hours => 6
    case Tagline => 7
    case Services => 8
    case Differential => 9
    case HasLogo => 10
    case Colors => 11
  }

  /** FormData has exactly twelve fields, each listed once, each under its own key. */
  lemma FieldCatalog()
    ensures |AllFields| == 12
    ensures forall f :: f in AllFields
    ensures forall i, j :: 0 <= i < j < |AllFields| ==> AllFields[i] != AllFields[j]
    ensures forall f, g :: f != g ==> Key(f) != Key(g)
  {
    forall f ensures f in AllFields {
      assert AllFields[Position(f)] == f;
    }
  }

  /** Two records agreeing on every field are the same record. */
  lemma FieldsDetermineRecord(d: FormData, e: FormData)
    requires forall f :: Get(d, f) == Get(e, f)
    ensures d == e
  {
    assert Get(d, CompanyName) == Get(e, CompanyName) && Get(d, Segment) == Get(e, Segment);
    assert Get(d, Location) == Get(e, Location) && Get(d, ServiceType) == Get(e, ServiceType);
    assert Get(d, Whatsapp) == Get(e, Whatsapp) && Get(d, Email) == Get(e, Email);
    assert Get(d, Hours) == Get(e, Hours) && Get(d, Tagline) == Get(e, Tagline);
    assert Get(d, Services) == Get(e, Services) && Get(d, Differential) == Get(e, Differential);
    assert Get(d, HasLogo) == Get(e, HasLogo) && Get(d, Colors) == Get(e, Colors);
  }

  /**
    FormErrors: a partial map from field to message; a missing key is
    `undefined`. The messages are fixed texts of the component that are only
    shown, never encoded, so they are kept as Dafny strings.
   */
  type FormErrors = map<Field, string>

  const SERVICE_TYPES: seq<JSString> :=
    [Str("Local"), Str("Online"), Str("Ambos (Local e Online)")]

  const LOGO_OPTIONS: seq<JSString> :=
    [Str("Sim (Enviarei arquivo no WhatsApp)"), Str("Não (Preciso criar)")]

  /** Three distinct service types, "Local" first (their lengths already differ). */
  lemma ServiceTypesDistinct()
    ensures |SERVICE_TYPES| == 3 && SERVICE_TYPES[0] == Str("Local")
    ensures SERVICE_TYPES[0] != SERVICE_TYPES[1] && SERVICE_TYPES[0] != SERVICE_TYPES[2]
    ensures SERVICE_TYPES[1] != SERVICE_TYPES[2]
  {
    assert |SERVICE_TYPES[0]| == 5 && |SERVICE_TYPES[1]| == 6 && |SERVICE_TYPES[2]| == 22;
  }

  /** Two distinct logo options. */
  lemma LogoOptionsDistinct()
    ensures |LOGO_OPTIONS| == 2 && LOGO_OPTIONS[0] != LOGO_OPTIONS[1]
  {
    assert |LOGO_OPTIONS[0]| == 34 && |LOGO_OPTIONS[1]| == 19;
  }
}
