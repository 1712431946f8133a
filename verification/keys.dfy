/**
 * The fixed table of the twenty store keys `database_info_list_new`
 * recognises, and the exact, case-sensitive lookup of a key in it.
 */
module Keys {
  import opened Wrappers
  import opened InfoRecord
  import opened Dom

  /** The store key whose value lands in field `f`. */
  function KeyName(f: Field): string {
    match f
    case Text(Name) => "name"
    case Text(Description) => "description"
    case Text(Publisher) => "publisher"
    case Text(Developer) => "developer"
    case Text(Origin) => "origin"
    case Text(Franchise) => "franchise"
    case Text(BbfcRating) => "bbfc_rating"
    case Text(EsrbRating) => "esrb_rating"
    case Text(ElspaRating) => "elspa_rating"
    case Text(CeroRating) => "cero_rating"
    case Text(PegiRating) => "pegi_rating"
    case Text(EnhancementHw) => "enhancement_hw"
    case Text(EdgeMagazineReview) => "edge_review"
    case Num(EdgeMagazineRating) => "edge_rating"
    case Num(EdgeMagazineIssue) => "edge_issue"
    case Num(MaxUsers) => "users"
    case Num(ReleaseMonth) => "releasemonth"
    case Num(ReleaseYear) => "releaseyear"
    case Num(RumbleSupported) => "rumble"
    case Num(AnalogSupported) => "analog"
  }

  /** Key names are non-empty and free of NUL characters, so `strcmp` sees all of them. */
  lemma KeyNameNulFree(f: Field)
    ensures |KeyName(f)| > 0 && NUL !in KeyName(f)
  {
    match f
    case Text(Name) => {}
    case Text(Description) => {}
    case Text(Publisher) => {}
    case Text(Developer) => {}
    case Text(Origin) => {}
    case Text(Franchise) => {}
    case Text(BbfcRating) => {}
    case Text(EsrbRating) => {}
    case Text(ElspaRating) => {}
    case Text(CeroRating) => {}
    case Text(PegiRating) => {}
    case Text(EnhancementHw) => {}
    case Text(EdgeMagazineReview) => {}
    case Num(EdgeMagazineRating) => {}
    case Num(EdgeMagazineIssue) => {}
    case Num(MaxUsers) => {}
    case Num(ReleaseMonth) => {}
    case Num(ReleaseYear) => {}
    case Num(RumbleSupported) => {}
    case Num(AnalogSupported) => {}
  }

  /** The order in which the key comparisons are made for every pair. */
  const DispatchOrder: seq<Field> := [
    Text(Name), Text(Description), Text(Publisher), Text(Developer), Text(Origin),
    Text(Franchise), Text(BbfcRating), Text(EsrbRating), Text(ElspaRating),
    Text(CeroRating), Text(PegiRating), Text(EnhancementHw), Text(EdgeMagazineReview),
    Num(EdgeMagazineRating), Num(EdgeMagazineIssue), Num(MaxUsers), Num(ReleaseMonth),
    Num(ReleaseYear), Num(RumbleSupported), Num(AnalogSupported)
  ]

  /** The text field whose key name is exactly `key`, if there is one. */
  function LookupText(key: string): (r: Option<TextField>)
    ensures r.Some? ==> KeyName(Text(r.value)) == key
    ensures r.None? ==> forall t :: KeyName(Text(t)) != key
  {
    if key == "name" then Some(Name)
    else if key == "description" then Some(Description)
    else if key == "publisher" then Some(Publisher)
    else if key == "developer" then Some(Developer)
    else if key == "origin" then Some(Origin)
    else if key == "franchise" then Some(Franchise)
    else if key == "bbfc_rating" then Some(BbfcRating)
    else if key == "esrb_rating" then Some(EsrbRating)
    else if key == "elspa_rating" then Some(ElspaRating)
    else if key == "cero_rating" then Some(CeroRating)
    else if key == "pegi_rating" then Some(PegiRating)
    else if key == "enhancement_hw" then Some(EnhancementHw)
    else if key == "edge_review" then Some(EdgeMagazineReview)
    else None
  }

  /** The numeric or tri-state field whose key name is exactly `key`, if there is one. */
  function LookupNum(key: string): (r: Option<NumField>)
    ensures r.Some? ==> KeyName(Num(r.value)) == key
    ensures r.None? ==> forall n :: KeyName(Num(n)) != key
  {
    if key == "edge_rating" then Some(EdgeMagazineRating)
    else if key == "edge_issue" then Some(EdgeMagazineIssue)
    else if key == "users" then Some(MaxUsers)
    else if key == "releasemonth" then Some(ReleaseMonth)
    else if key == "releaseyear" then Some(ReleaseYear)
    else if key == "rumble" then Some(RumbleSupported)
    else if key == "analog" then Some(AnalogSupported)
    else None
  }

  /** The field whose key name is exactly `key`, if there is one. */
  function Lookup(key: string): (r: Option<Field>)
    ensures r.Some? ==> KeyName(r.value) == key
    ensures r.None? ==> forall f :: KeyName(f) != key
  {
    match LookupText(key)
    case Some(t) => Some(Text(t))
    case None =>
      match LookupNum(key)
      case Some(n) => Some(Num(n))
      case None => None
  }

  /** Looking up the key name of a text field finds that field again. */
  lemma LookupTextKeyName(t: TextField)
    ensures LookupText(KeyName(Text(t))) == Some(t)
  {
    match t
    case Name => {}
    case Description => {}
    case Publisher => {}
    case Developer => {}
    case Origin => {}
    case Franchise => {}
    case BbfcRating => {}
    case EsrbRating => {}
    case ElspaRating => {}
    case CeroRating => {}
    case PegiRating => {}
    case EnhancementHw => {}
    case EdgeMagazineReview => {}
  }

  /** Looking up the key name of a numeric field finds that field again, and no text field. */
  lemma LookupNumKeyName(n: NumField)
    ensures LookupText(KeyName(Num(n))) == None
    ensures LookupNum(KeyName(Num(n))) == Some(n)
  {
    match n
    case EdgeMagazineRating => {}
    case EdgeMagazineIssue => {}
    case MaxUsers => {}
    case ReleaseMonth => {}
    case ReleaseYear => {}
    case RumbleSupported => {}
    case AnalogSupported => {}
  }

  /** Looking up the key name of a field finds that field again. */
  lemma LookupKeyName(f: Field)
    ensures Lookup(KeyName(f)) == Some(f)
  {
    match f
    case Text(t) => LookupTextKeyName(t);
    case Num(n) => LookupNumKeyName(n);
  }

  /** No two fields share a key name. */
  lemma KeyNameInjective(f: Field, g: Field)
    requires KeyName(f) == KeyName(g)
    ensures f == g
  {
    LookupKeyName(f);
    LookupKeyName(g);
  }

  /** A key selects field `f` exactly when it is `f`'s key name, character for character. */
  lemma LookupExact(key: string, f: Field)
    ensures Lookup(key) == Some(f) <==> KeyName(f) == key
  {
    if KeyName(f) == key {
      LookupKeyName(f);
    }
  }

  /** The comparison chain tests every field. */
  lemma DispatchOrderCovers(f: Field)
    ensures f in DispatchOrder
  {
    match f
    case Text(Name) => assert DispatchOrder[0] == f;
    case Text(Description) => assert DispatchOrder[1] == f;
    case Text(Publisher) => assert DispatchOrder[2] == f;
    case Text(Developer) => assert DispatchOrder[3] == f;
    case Text(Origin) => assert DispatchOrder[4] == f;
    case Text(Franchise) => assert DispatchOrder[5] == f;
    case Text(BbfcRating) => assert DispatchOrder[6] == f;
    case Text(EsrbRating) => assert DispatchOrder[7] == f;
    case Text(ElspaRating) => assert DispatchOrder[8] == f;
    case Text(CeroRating) => assert DispatchOrder[9] == f;
    case Text(PegiRating) => assert DispatchOrder[10] == f;
    case Text(EnhancementHw) => assert DispatchOrder[11] == f;
    case Text(EdgeMagazineReview) => assert DispatchOrder[12] == f;
    case Num(EdgeMagazineRating) => assert DispatchOrder[13] == f;
    case Num(EdgeMagazineIssue) => assert DispatchOrder[14] == f;
    case Num(MaxUsers) => assert DispatchOrder[15] == f;
    case Num(ReleaseMonth) => assert DispatchOrder[16] == f;
    case Num(ReleaseYear) => assert DispatchOrder[17] == f;
    case Num(RumbleSupported) => assert DispatchOrder[18] == f;
    case Num(AnalogSupported) => assert DispatchOrder[19] == f;
  }

  /** The comparison chain tests no field twice: twenty comparisons for twenty fields. */
  lemma DispatchOrderDistinct()
    ensures |DispatchOrder| == 20
    ensures forall i, j :: 0 <= i < j < |DispatchOrder| ==> DispatchOrder[i] != DispatchOrder[j]
  {
  }
}
