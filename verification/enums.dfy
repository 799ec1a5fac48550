/** The closed value sets of the schemas, with case-insensitive parsing from
    request text and the case-sensitive check the schema applies on save. */
module Enums {
  import opened Base
  import opened Strings

  /** The first element of `all` whose name is `key`. */
  function Lookup<T(==)>(all: seq<T>, name: T -> string, key: string): (r: Option<T>)
    ensures r.Some? ==> r.value in all && name(r.value) == key
    ensures r.None? ==> forall t <- all :: name(t) != key
  {
    if |all| == 0 then None
    else if name(all[0]) == key then Some(all[0])
    else Lookup(all[1..], name, key)
  }

  // ---------------------------------------------------------------- status

  datatype WasteStatus = Pending | Assigned | Completed | Cancelled

  function StatusName(s: WasteStatus): string {
    match s
    case Pending => "PENDING"
    case Assigned => "ASSIGNED"
    case Completed => "COMPLETED"
    case Cancelled => "CANCELLED"
  }

  const AllStatuses: seq<WasteStatus> := [Pending, Assigned, Completed, Cancelled]

  /** `Object.values(WasteStatus).includes(s.toUpperCase())`, returning the
      member that matched. */
  function ParseStatus(s: string): (r: Option<WasteStatus>)
    ensures forall t :: r == Some(t) <==> StatusName(t) == Upper(s)
  {
    var u := Upper(s);
    StatusesListed();
    Lookup(AllStatuses, StatusName, u)
  }

  // ------------------------------------------------------------- item type

  datatype ItemType = Waste | OldItem

  function ItemTypeName(t: ItemType): string {
    match t
    case Waste => "WASTE"
    case OldItem => "OLD_ITEM"
  }

  const AllItemTypes: seq<ItemType> := [Waste, OldItem]

  /** The schema's enum check: exact, case-sensitive. */
  function ExactItemType(s: string): (r: Option<ItemType>)
    ensures forall t :: r == Some(t) <==> ItemTypeName(t) == s
  {
    ItemTypesListed();
    Lookup(AllItemTypes, ItemTypeName, s)
  }

  function ParseItemType(s: string): (r: Option<ItemType>)
    ensures forall t :: r == Some(t) <==> ItemTypeName(t) == Upper(s)
  {
    ExactItemType(Upper(s))
  }

  // --------------------------------------------------------- waste category

  datatype WasteCategory =
    | Biodegradable | NonBiodegradable | RecyclablePlastic | RecyclablePaper
    | RecyclableMetal | EWaste | Hazardous | Other

  function CategoryName(c: WasteCategory): string {
    match c
    case Biodegradable => "BIODEGRADABLE"
    case NonBiodegradable => "NON_BIODEGRADABLE"
    case RecyclablePlastic => "RECYCLABLE_PLASTIC"
    case RecyclablePaper => "RECYCLABLE_PAPER"
    case RecyclableMetal => "RECYCLABLE_METAL"
    case EWaste => "E_WASTE"
    case Hazardous => "HAZARDOUS"
    case Other => "OTHER"
  }

  const AllCategories: seq<WasteCategory> :=
    [Biodegradable, NonBiodegradable, RecyclablePlastic, RecyclablePaper,
     RecyclableMetal, EWaste, Hazardous, Other]

  function ExactCategory(s: string): (r: Option<WasteCategory>)
    ensures forall c :: r == Some(c) <==> CategoryName(c) == s
  {
    CategoriesListed();
    Lookup(AllCategories, CategoryName, s)
  }

  function ParseCategory(s: string): (r: Option<WasteCategory>)
    ensures forall c :: r == Some(c) <==> CategoryName(c) == Upper(s)
  {
    ExactCategory(Upper(s))
  }

  // ------------------------------------------------------ accounts

  datatype UserType = Generator | Collector | Admin

  function UserTypeName(t: UserType): string {
    match t
    case Generator => "GENERATOR"
    case Collector => "COLLECTOR"
    case Admin => "ADMIN"
  }

  const AllUserTypes: seq<UserType> := [Generator, UserType.Collector, UserType.Admin]

  function ParseUserType(s: string): (r: Option<UserType>)
    ensures forall t :: r == Some(t) <==> UserTypeName(t) == Upper(s)
  {
    UserTypesListed();
    Lookup(AllUserTypes, UserTypeName, Upper(s))
  }

  datatype UserRole = Lister | Collector | Admin

  /** The role a new account receives: ADMIN and COLLECTOR carry over, and
      everything else (GENERATOR) becomes LISTER. */
  function RoleFor(t: UserType): (r: UserRole)
    ensures r == UserRole.Admin <==> t == UserType.Admin
    ensures r == UserRole.Collector <==> t == UserType.Collector
    ensures r == UserRole.Lister <==> t == UserType.Generator
  {
    match t
    case Admin => UserRole.Admin
    case Collector => UserRole.Collector
    case _ => UserRole.Lister
  }

  // ------------------------------------------------------ completeness

  lemma StatusesListed()
    ensures forall t :: t in AllStatuses
  {
    forall t ensures t in AllStatuses {
      match t
      case Pending => assert AllStatuses[0] == t;
      case Assigned => assert AllStatuses[1] == t;
      case Completed => assert AllStatuses[2] == t;
      case Cancelled => assert AllStatuses[3] == t;
    }
  }

  lemma ItemTypesListed()
    ensures forall t :: t in AllItemTypes
  {
    forall t ensures t in AllItemTypes {
      match t
      case Waste => assert AllItemTypes[0] == t;
      case OldItem => assert AllItemTypes[1] == t;
    }
  }

  lemma CategoriesListed()
    ensures forall c :: c in AllCategories
  {
    forall c ensures c in AllCategories {
      match c
      case Biodegradable => assert AllCategories[0] == c;
      case NonBiodegradable => assert AllCategories[1] == c;
      case RecyclablePlastic => assert AllCategories[2] == c;
      case RecyclablePaper => assert AllCategories[3] == c;
      case RecyclableMetal => assert AllCategories[4] == c;
      case EWaste => assert AllCategories[5] == c;
      case Hazardous => assert AllCategories[6] == c;
      case Other => assert AllCategories[7] == c;
    }
  }

  lemma UserTypesListed()
    ensures forall t :: t in AllUserTypes
  {
    forall t ensures t in AllUserTypes {
      match t
      case Generator => assert AllUserTypes[0] == t;
      case Collector => assert AllUserTypes[1] == t;
      case Admin => assert AllUserTypes[2] == t;
    }
  }

  // ------------------------------------------------------ name lemmas

  lemma StatusNameCanonical(t: WasteStatus)
    ensures Canonical(StatusName(t))
  {
    var n := StatusName(t);
    assert forall i :: 0 <= i < |n| ==> NameChar(n[i]);
  }

  /** A status parses from its canonical name and from that name written in
      lower case. */
  lemma ParseStatusIgnoresCase(t: WasteStatus)
    ensures ParseStatus(StatusName(t)) == Some(t)
    ensures ParseStatus(Lower(StatusName(t))) == Some(t)
  {
    StatusNameCanonical(t);
    UpperOfCanonical(StatusName(t));
    UpperOfLower(StatusName(t));
  }

  lemma ItemTypeNameCanonical(t: ItemType)
    ensures Canonical(ItemTypeName(t))
  {
    var n := ItemTypeName(t);
    assert forall i :: 0 <= i < |n| ==> NameChar(n[i]);
  }

  lemma ParseItemTypeIgnoresCase(t: ItemType)
    ensures ParseItemType(ItemTypeName(t)) == Some(t)
    ensures ParseItemType(Lower(ItemTypeName(t))) == Some(t)
  {
    ItemTypeNameCanonical(t);
    UpperOfCanonical(ItemTypeName(t));
    UpperOfLower(ItemTypeName(t));
  }

  lemma CategoryNameCanonical(c: WasteCategory)
    ensures Canonical(CategoryName(c))
  {
    var n := CategoryName(c);
    assert forall i :: 0 <= i < |n| ==> NameChar(n[i]);
  }

  lemma ParseCategoryIgnoresCase(c: WasteCategory)
    ensures ParseCategory(CategoryName(c)) == Some(c)
    ensures ParseCategory(Lower(CategoryName(c))) == Some(c)
  {
    CategoryNameCanonical(c);
    UpperOfCanonical(CategoryName(c));
    UpperOfLower(CategoryName(c));
  }

  lemma UserTypeNameCanonical(t: UserType)
    ensures Canonical(UserTypeName(t))
  {
    var n := UserTypeName(t);
    assert forall i :: 0 <= i < |n| ==> NameChar(n[i]);
  }

  lemma ParseUserTypeIgnoresCase(t: UserType)
    ensures ParseUserType(UserTypeName(t)) == Some(t)
    ensures ParseUserType(Lower(UserTypeName(t))) == Some(t)
  {
    UserTypeNameCanonical(t);
    UpperOfCanonical(UserTypeName(t));
    UpperOfLower(UserTypeName(t));
  }

  /** Two spellings with the same uppercase parse alike. */
  lemma ParseStatusSameUpper(a: string, b: string)
    requires Upper(a) == Upper(b)
    ensures ParseStatus(a) == ParseStatus(b)
  {
  }

  /** Storing the uppercased spelling loses nothing: it parses to the same
      status as the original input. */
  lemma ParseStatusOfUpper(s: string)
    ensures ParseStatus(Upper(s)) == ParseStatus(s)
  {
    UpperIdempotent(s);
    ParseStatusSameUpper(Upper(s), s);
  }
}
