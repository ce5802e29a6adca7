/** The two tables: users (the credential store) and products (the catalog),
    with the invariants the schema and the handlers keep on them. */
module Models {
  import opened Optional
  import opened Text
  import opened Passwords

  /** A row of the `user` table; `email` is unique and `password_hash` is
      never the plaintext. */
  datatype User = User(id: nat, email: string, name: Option<string>, passwordHash: PasswordHash)

  /** A row of the `product` table; `slug` is unique. */
  datatype Product = Product(id: nat, slug: string, title: string,
                             description: Option<string>, thumbnail: Option<string>)

  // ---------------------------------------------------------------- users

  /** The users table keyed by e-mail: every key is its row's e-mail, already
      lower-cased and non-empty, and the generated ids are 1..|users| without
      repetition (rows are only ever appended). */
  ghost predicate UsersValid(users: map<string, User>)
  {
    RowsKeyed(users) && IdsDistinct(users)
  }

  ghost predicate RowsKeyed(users: map<string, User>)
  {
    forall k :: k in users ==>
      users[k].email == k && k != "" && Lower(k) == k && 1 <= users[k].id <= |users|
  }

  ghost predicate IdsDistinct(users: map<string, User>)
  {
    forall k1, k2 :: k1 in users && k2 in users && k1 != k2 ==> users[k1].id != users[k2].id
  }

  /** The row a new account gets: the next id and the hash of the password. */
  function NewUser(users: map<string, User>, key: string, name: Option<string>,
                   password: string, salt: nat): User
  {
    User(|users| + 1, key, name, Hash(salt, password))
  }

  /** The table after a new account for `key` is inserted: the next row id,
      the hash of the password and never the password itself. */
  function Registered(users: map<string, User>, key: string, name: Option<string>,
                      password: string, salt: nat): (r: map<string, User>)
    ensures r.Keys == users.Keys + {key}
    ensures forall k :: k in users && k != key ==> r[k] == users[k]
    ensures r[key].email == key && r[key].name == name && Check(r[key].passwordHash, password)
  {
    CheckHash(salt, password, password);
    users[key := NewUser(users, key, name, password, salt)]
  }

  /** Inserting an e-mail that is not yet taken keeps the table valid. */
  lemma RegisteredValid(users: map<string, User>, key: string, name: Option<string>,
                        password: string, salt: nat)
    requires UsersValid(users)
    requires key !in users && key != "" && Lower(key) == key
    ensures UsersValid(Registered(users, key, name, password, salt))
    ensures |Registered(users, key, name, password, salt)| == |users| + 1
  {
    var u := NewUser(users, key, name, password, salt);
    var r := users[key := u];
    assert |r| == |users| + 1;
    InsertKeepsRowsKeyed(users, key, u);
    InsertKeepsIdsDistinct(users, key, u);
  }

  lemma InsertKeepsRowsKeyed(users: map<string, User>, key: string, u: User)
    requires RowsKeyed(users)
    requires key !in users && key != "" && Lower(key) == key
    requires u.email == key && u.id == |users| + 1
    ensures RowsKeyed(users[key := u])
  {
    var r := users[key := u];
    assert |r| == |users| + 1;
    forall k | k in r
      ensures r[k].email == k && k != "" && Lower(k) == k && 1 <= r[k].id <= |r|
    {
      if k != key {
        assert r[k] == users[k];
      }
    }
  }

  lemma InsertKeepsIdsDistinct(users: map<string, User>, key: string, u: User)
    requires RowsKeyed(users) && IdsDistinct(users)
    requires key !in users && u.id == |users| + 1
    ensures IdsDistinct(users[key := u])
  {
    var r := users[key := u];
    forall k1, k2 | k1 in r && k2 in r && k1 != k2
      ensures r[k1].id != r[k2].id
    {
      if k1 != key && k2 != key {
        assert r[k1] == users[k1] && r[k2] == users[k2];
      }
    }
  }

  /** `user and user.check_password(password)` for the lower-cased e-mail. */
  predicate Authenticates(users: map<string, User>, email: string, password: string)
  {
    var key := Lower(email);
    key in users && Check(users[key].passwordHash, password)
  }

  /** The three ways a signup submission can go. */
  datatype SignupVerdict = MissingFields | AlreadyRegistered | Accepted

  /** Which of the signup branches a submission takes. */
  function SignupCheck(users: map<string, User>, email: string, password: string): (v: SignupVerdict)
    ensures v == MissingFields <==> email == "" || password == ""
    ensures v == AlreadyRegistered <==> email != "" && password != "" && Lower(email) in users
    ensures v == Accepted <==> email != "" && password != "" && Lower(email) !in users
  {
    var key := Lower(email);
    if key == "" || password == "" then MissingFields
    else if key in users then AlreadyRegistered
    else Accepted
  }

  // -------------------------------------------------------------- catalog

  /** No two products share a slug. */
  ghost predicate SlugsUnique(ps: seq<Product>)
  {
    forall i, j :: 0 <= i < j < |ps| ==> ps[i].slug != ps[j].slug
  }

  /** The products table: unique slugs, row ids 1..|ps| in insertion order. */
  ghost predicate CatalogValid(ps: seq<Product>)
  {
    SlugsUnique(ps) && forall i :: 0 <= i < |ps| ==> ps[i].id == i + 1
  }

  /** One entry of the fixed demo list. */
  datatype DemoRow = DemoRow(slug: string, title: string, description: string)

  /** The demo list that seeds an empty catalog. */
  const Demo: seq<DemoRow> := [
    DemoRow("talking-avatar", "Talking Avatar", "Type text and get a talking avatar video."),
    DemoRow("realtime-avatar", "Real-time Avatar", "Real-time voice-to-avatar conversation."),
    DemoRow("pdf-to-avatar", "PDF \U{2192} Avatar", "Upload PDF, extract text and make avatars."),
    DemoRow("multilingual-avatar", "Multilingual Avatar", "Speak or type in multiple languages.")
  ]

  /** The row a demo entry becomes; no thumbnail is given. */
  function Row(d: DemoRow, id: nat): Product
  {
    Product(id, d.slug, d.title, Some(d.description), None)
  }

  /** The rows the seed inserts into an empty catalog, in list order. */
  function SeedRows(): seq<Product>
  {
    seq(|Demo|, i requires 0 <= i < |Demo| => Row(Demo[i], i + 1))
  }

  /** The catalog after the seed step: the demo rows when it was empty, else as it was. */
  function Seeded(ps: seq<Product>): seq<Product>
  {
    if |ps| == 0 then SeedRows() else ps
  }

  /** The seed rows are the four demo products, in order, and form a valid catalog. */
  lemma SeedRowsValid()
    ensures |SeedRows()| == 4
    ensures forall i :: 0 <= i < 4 ==> SeedRows()[i].slug == Demo[i].slug
    ensures CatalogValid(SeedRows())
  {
  }

  /** Seeding keeps a valid catalog valid and is idempotent: a second seed
      step changes nothing, so slugs never repeat. */
  lemma SeededIdempotent(ps: seq<Product>)
    requires CatalogValid(ps)
    ensures CatalogValid(Seeded(ps))
    ensures Seeded(Seeded(ps)) == Seeded(ps)
    ensures |Seeded(ps)| > 0
  {
    SeedRowsValid();
  }

  /** `Product.query.filter_by(slug=slug).first()`: the first row with that slug. */
  function FindBySlug(ps: seq<Product>, slug: string): (r: Option<Product>)
    ensures r.None? <==> forall i :: 0 <= i < |ps| ==> ps[i].slug != slug
    ensures r.Some? ==> exists i :: 0 <= i < |ps| && ps[i] == r.value
                          && r.value.slug == slug
                          && forall j :: 0 <= j < i ==> ps[j].slug != slug
  {
    if ps == [] then None
    else if ps[0].slug == slug then Some(ps[0])
    else
      var r := FindBySlug(ps[1..], slug);
      assert forall i :: 1 <= i < |ps| ==> ps[i] == ps[1..][i - 1];
      r
  }
}
