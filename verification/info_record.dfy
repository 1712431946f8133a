/**
 * The fixed-schema record `database_info_t`: thirteen owned, optional text
 * fields, five unsigned numeric fields and two tri-state flags.
 */
module InfoRecord {
  import opened Wrappers

  datatype TextField =
    | Name | Description | Publisher | Developer | Origin | Franchise
    | BbfcRating | EsrbRating | ElspaRating | CeroRating | PegiRating
    | EnhancementHw | EdgeMagazineReview

  datatype NumField =
    | EdgeMagazineRating | EdgeMagazineIssue | MaxUsers | ReleaseMonth | ReleaseYear
    | RumbleSupported | AnalogSupported

  /** Selects one of the twenty fields of a record. */
  datatype Field = Text(t: TextField) | Num(n: NumField)

  /** The two signed flags, where -1 means unknown, 0 no and 1 yes. */
  predicate IsTriState(n: NumField) {
    n == RumbleSupported || n == AnalogSupported
  }

  /** A text field is `None` while its pointer is NULL. */
  datatype DatabaseInfo = DatabaseInfo(
    name: Option<string>,
    description: Option<string>,
    publisher: Option<string>,
    developer: Option<string>,
    origin: Option<string>,
    franchise: Option<string>,
    bbfcRating: Option<string>,
    esrbRating: Option<string>,
    elspaRating: Option<string>,
    ceroRating: Option<string>,
    pegiRating: Option<string>,
    enhancementHw: Option<string>,
    edgeMagazineReview: Option<string>,
    edgeMagazineRating: nat,
    edgeMagazineIssue: nat,
    maxUsers: nat,
    releaseMonth: nat,
    releaseYear: nat,
    analogSupported: int,
    rumbleSupported: int)

  /** The content of one field, whatever its kind. */
  datatype Slot = TextSlot(text: Option<string>) | NumSlot(n: int)

  /** `s` can be stored in field `f`: text in a text field, a number in a numeric one, never negative in an unsigned one. */
  predicate Fits(f: Field, s: Slot) {
    match f
    case Text(_) => s.TextSlot?
    case Num(n) => s.NumSlot? && (IsTriState(n) || s.n >= 0)
  }

  function Get(r: DatabaseInfo, f: Field): (s: Slot)
    ensures Fits(f, s)
  {
    match f
    case Text(Name) => TextSlot(r.name)
    case Text(Description) => TextSlot(r.description)
    case Text(Publisher) => TextSlot(r.publisher)
    case Text(Developer) => TextSlot(r.developer)
    case Text(Origin) => TextSlot(r.origin)
    case Text(Franchise) => TextSlot(r.franchise)
    case Text(BbfcRating) => TextSlot(r.bbfcRating)
    case Text(EsrbRating) => TextSlot(r.esrbRating)
    case Text(ElspaRating) => TextSlot(r.elspaRating)
    case Text(CeroRating) => TextSlot(r.ceroRating)
    case Text(PegiRating) => TextSlot(r.pegiRating)
    case Text(EnhancementHw) => TextSlot(r.enhancementHw)
    case Text(EdgeMagazineReview) => TextSlot(r.edgeMagazineReview)
    case Num(EdgeMagazineRating) => NumSlot(r.edgeMagazineRating)
    case Num(EdgeMagazineIssue) => NumSlot(r.edgeMagazineIssue)
    case Num(MaxUsers) => NumSlot(r.maxUsers)
    case Num(ReleaseMonth) => NumSlot(r.releaseMonth)
    case Num(ReleaseYear) => NumSlot(r.releaseYear)
    case Num(RumbleSupported) => NumSlot(r.rumbleSupported)
    case Num(AnalogSupported) => NumSlot(r.analogSupported)
  }

  /** Assigns one field; every other field keeps its content. */
  function Set(r: DatabaseInfo, f: Field, s: Slot): (r': DatabaseInfo)
    requires Fits(f, s)
    ensures Get(r', f) == s
    ensures forall g :: g != f ==> Get(r', g) == Get(r, g)
  {
    match f
    case Text(Name) => r.(name := s.text)
    case Text(Description) => r.(description := s.text)
    case Text(Publisher) => r.(publisher := s.text)
    case Text(Developer) => r.(developer := s.text)
    case Text(Origin) => r.(origin := s.text)
    case Text(Franchise) => r.(franchise := s.text)
    case Text(BbfcRating) => r.(bbfcRating := s.text)
    case Text(EsrbRating) => r.(esrbRating := s.text)
    case Text(ElspaRating) => r.(elspaRating := s.text)
    case Text(CeroRating) => r.(ceroRating := s.text)
    case Text(PegiRating) => r.(pegiRating := s.text)
    case Text(EnhancementHw) => r.(enhancementHw := s.text)
    case Text(EdgeMagazineReview) => r.(edgeMagazineReview := s.text)
    case Num(EdgeMagazineRating) => r.(edgeMagazineRating := s.n)
    case Num(EdgeMagazineIssue) => r.(edgeMagazineIssue := s.n)
    case Num(MaxUsers) => r.(maxUsers := s.n)
    case Num(ReleaseMonth) => r.(releaseMonth := s.n)
    case Num(ReleaseYear) => r.(releaseYear := s.n)
    case Num(RumbleSupported) => r.(rumbleSupported := s.n)
    case Num(AnalogSupported) => r.(analogSupported := s.n)
  }

  /**
   * The record `database_info_list_new` places in a fresh slot before it looks
   * at any key: no text, zero for the unsigned fields, unknown for the flags.
   */
  function NewRecord(): (r: DatabaseInfo)
    ensures forall t :: Get(r, Text(t)) == TextSlot(None)
    ensures forall n :: !IsTriState(n) ==> Get(r, Num(n)) == NumSlot(0)
    ensures forall n :: IsTriState(n) ==> Get(r, Num(n)) == NumSlot(-1)
  {
    DatabaseInfo(
      None, None, None, None, None, None, None, None, None, None, None, None, None,
      0, 0, 0, 0, 0, -1, -1)
  }
}
