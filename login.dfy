/**
 * The technician login check (`POST /api/login/technician`): look the phone
 * number up in `technicians` with `.single()`, then compare the submitted
 * password with the stored `password_hash` by plain string equality. The
 * check only reads; it has no store to change.
 */
module TechnicianLogin {
  import opened Values
  import opened Sequences

  datatype TechnicianRow = TechnicianRow(id: string, name: string, phone: string, passwordHash: string)

  datatype LoginResponse =
    | MissingCredentials
    | UserNotFound
    | WrongPassword
    | LoggedIn(technicianId: string, name: string)

  function StatusCode(r: LoginResponse): int {
    match r
    case MissingCredentials => 400
    case UserNotFound => 401
    case WrongPassword => 401
    case LoggedIn(_, _) => 200
  }

  function Message(r: LoginResponse): string {
    match r
    case MissingCredentials => "Telefon ve şifre gerekli."
    case UserNotFound => "Kullanıcı bulunamadı."
    case WrongPassword => "Şifre yanlış."
    case LoggedIn(_, _) => "Giriş başarılı."
  }

  function HasPhone(phone: string): TechnicianRow -> bool {
    (t: TechnicianRow) => t.phone == phone
  }

  /**
   * `.eq('phone', phone).single()`: the row when exactly one row matches and
   * the query did not fail, `None` otherwise.
   */
  function SingleByPhone(table: seq<TechnicianRow>, queryFails: bool, phone: string): (r: Option<TechnicianRow>)
    ensures r.Some? <==> !queryFails && |Filter(table, HasPhone(phone))| == 1
    ensures r.Some? ==> r.value in table && r.value.phone == phone
  {
    var matching := Filter(table, HasPhone(phone));
    FilterSpec(table, HasPhone(phone));
    if !queryFails && |matching| == 1 then
      assert matching[0] in multiset(matching);
      Some(matching[0])
    else None
  }

  function Login(phone: Option<string>, password: Option<string>, table: seq<TechnicianRow>, queryFails: bool): (r: LoginResponse)
    ensures r == MissingCredentials <==> !(Present(phone) && Present(password))
    ensures r == UserNotFound <==>
      Present(phone) && Present(password) && SingleByPhone(table, queryFails, phone.value).None?
    ensures r.LoggedIn? <==>
      (Present(phone) && Present(password) && SingleByPhone(table, queryFails, phone.value).Some?
       && SingleByPhone(table, queryFails, phone.value).value.passwordHash == password.value)
    ensures r.LoggedIn? ==>
      var t := SingleByPhone(table, queryFails, phone.value).value;
      r.technicianId == t.id && r.name == t.name
  {
    if !Present(phone) || !Present(password) then MissingCredentials
    else match SingleByPhone(table, queryFails, phone.value)
      case None => UserNotFound
      case Some(t) =>
        if password.value == t.passwordHash then LoggedIn(t.id, t.name) else WrongPassword
  }

  // ---------------------------------------------------------------- properties

  /**
   * A successful login names the one technician registered under that phone,
   * and the submitted password is exactly its stored `password_hash`.
   */
  lemma LoggedInIsTheUniqueRow(phone: string, password: string, table: seq<TechnicianRow>, queryFails: bool)
    requires Login(Some(phone), Some(password), table, queryFails).LoggedIn?
    ensures exists t :: (t in table && t.phone == phone && t.passwordHash == password
      && Login(Some(phone), Some(password), table, queryFails) == LoggedIn(t.id, t.name))
    ensures forall u :: u in table && u.phone == phone ==> u == SingleByPhone(table, queryFails, phone).value
  {
    var t := SingleByPhone(table, queryFails, phone).value;
    assert t in table && t.phone == phone;
    FilterSpec(table, HasPhone(phone));
    var m := Filter(table, HasPhone(phone));
    forall u | u in table && u.phone == phone ensures u == t {
      assert multiset(m)[u] > 0;
      assert u in m;
      assert m == [m[0]];
    }
  }

  /** For a given phone and table at most one password is accepted. */
  lemma AtMostOnePasswordAccepted(phone: string, p1: string, p2: string, table: seq<TechnicianRow>, queryFails: bool)
    requires Login(Some(phone), Some(p1), table, queryFails).LoggedIn?
    requires Login(Some(phone), Some(p2), table, queryFails).LoggedIn?
    ensures p1 == p2
  {
  }

  /** Duplicate phone numbers lock everybody with that phone out: `.single()` fails. */
  lemma {:induction false} DuplicatePhoneNotFound(phone: string, password: string, table: seq<TechnicianRow>, i: nat, j: nat)
    requires phone != "" && password != ""
    requires i < j < |table| && table[i].phone == phone && table[j].phone == phone
    ensures Login(Some(phone), Some(password), table, false) == UserNotFound
  {
    FilterTwoPass(table, HasPhone(phone), i, j);
  }

  /**
   * Every outcome has the status code the handler sends: 400, 401 or 200.
   * An unknown phone and a wrong password both answer 401, so the status
   * alone does not tell the caller which of the two it was.
   */
  lemma StatusCodes(phone: Option<string>, password: Option<string>, table: seq<TechnicianRow>, queryFails: bool)
    ensures var r := Login(phone, password, table, queryFails);
      && (StatusCode(r) == 400 <==> r == MissingCredentials)
      && (StatusCode(r) == 401 <==> r == UserNotFound || r == WrongPassword)
      && (StatusCode(r) == 200 <==> r.LoggedIn?)
    ensures StatusCode(UserNotFound) == StatusCode(WrongPassword) && Message(UserNotFound) != Message(WrongPassword)
  {
  }
}
