/**
 The records the dashboard manipulates: a cached user as the remote
 collection store returns it, the four-field form of the add/edit dialog,
 and the payload the dialog sends.
 */
module Users {

  datatype Option<+T> = None | Some(value: T)

  function GetOr<T>(o: Option<T>, default: T): T
  {
    match o
    case Some(v) => v
    case None => default
  }

  datatype Company = Company(name: string, catchPhrase: string, bs: string)

  datatype Address = Address(street: string, city: string, zipcode: string)

  /** A cached user. `companyName` is the loose property an optimistic edit
      copies onto the record from the form (`{...u, ...newData}`); records
      from the server or from an optimistic add do not carry it. */
  datatype User = User(
    id: int,
    name: string,
    username: string,
    email: string,
    phone: string,
    website: string,
    address: Address,
    company: Company,
    companyName: Option<string>)

  /** The add/edit dialog's fields. */
  datatype FormData = FormData(name: string, email: string, phone: string, companyName: string)

  /** The request body: the form fields spread, plus `company: {name}`. */
  datatype Payload = Payload(
    name: string,
    email: string,
    phone: string,
    companyName: string,
    company: CompanyRef)

  datatype CompanyRef = CompanyRef(name: string)

  /** What the edit dialog shows when it opens on `u`. */
  function Prefill(u: User): FormData
  {
    FormData(u.name, u.email, u.phone, u.company.name)
  }

  /** `{...data, company: {name: data.companyName}}`. */
  function PayloadOf(f: FormData): (p: Payload)
    ensures FormOf(p) == f
    ensures p.company.name == p.companyName
  {
    Payload(f.name, f.email, f.phone, f.companyName, CompanyRef(f.companyName))
  }

  /** The form fields a payload carries. */
  function FormOf(p: Payload): FormData
  {
    FormData(p.name, p.email, p.phone, p.companyName)
  }

  function Ids(xs: seq<User>): (ids: seq<int>)
    ensures |ids| == |xs|
    ensures forall i :: 0 <= i < |xs| ==> ids[i] == xs[i].id
  {
    seq(|xs|, i requires 0 <= i < |xs| => xs[i].id)
  }

  /** No two cached users share an id. */
  predicate UniqueIds(xs: seq<User>)
  {
    forall i, j :: 0 <= i < j < |xs| ==> xs[i].id != xs[j].id
  }
}
