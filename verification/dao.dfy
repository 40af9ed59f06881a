/** The data-access object of server/database/dao.js, over an in-memory store
    that stands for the MySQL tables `user`, `user_address`, `product` and
    `inventory`. */
module Database {
  import opened Common
  import opened StringUtil
  import opened Validation

  // ---------------------------------------------------------------------------
  // Password hashing

  /** bcrypt as a pair of functions: `hash(password, salt)` is `hashSync` and
      `verify(password, hash)` is `compareSync`. The salt, which `genSaltSync`
      draws at random, is a parameter of the operations that hash. */
  datatype Hasher = Hasher(hash: (string, string) -> string, verify: (string, string) -> bool)

  /** The one property of bcrypt the model relies on: a password verifies
      against any hash made from it. */
  ghost predicate RoundTrips(h: Hasher)
  {
    forall password, salt :: h.verify(password, h.hash(password, salt))
  }

  // ---------------------------------------------------------------------------
  // Rows

  /** A row of the `user` table. */
  datatype UserRow = UserRow(
    user_id: nat, first_name: string, last_name: Option<string>, email: string, password_hash: string)

  /** The user object `authenticateUser` hands back: the row with its
      `password_hash` column removed. */
  datatype User = User(user_id: nat, first_name: string, last_name: Option<string>, email: string)

  function WithoutPasswordHash(row: UserRow): User
  {
    User(row.user_id, row.first_name, row.last_name, row.email)
  }

  /** A row of the `user_address` table. */
  datatype AddressRow = AddressRow(
    user_address_id: nat, user_id: nat,
    address_line1: string, address_line2: Option<string>,
    city: string, state: string, postal_code: string, country: string)

  /** A row of the `product` table; `available` is the TINYINT flag and
      `created_at` the creation time. `price` is a DECIMAL column, which the
      driver returns as text. */
  datatype Product = Product(
    product_id: int, name: string, description: string, price: string, image_url: string,
    available: int, created_at: int)

  /** The columns of the `inventory` row of a product. */
  datatype Inventory = Inventory(stock_level: int, reorder_threshold: int)

  /** A row of the product listings: the product LEFT JOINed with its stock
      level, which is NULL when the product has no inventory row. */
  datatype ListedProduct = ListedProduct(product: Product, stock_level: Option<int>)

  /** The row `getProductById` returns: the product with its stock level and
      reorder threshold, both NULL without an inventory row. */
  datatype ProductDetail = ProductDetail(product: Product, stock_level: Option<int>, reorder_threshold: Option<int>)

  // ---------------------------------------------------------------------------
  // Messages

  const InsertUserFailed := "Insert user operation failed."
  const InsertAddressFailed := "Insert address operation failed."
  const ProductsFailed := "Failed to retrieve products."
  const ProductIdRequired := "Valid product ID is required"
  const ProductNotFound := "Product not found"
  const ProductFailed := "Failed to retrieve product."
  const FeaturedFailed := "Failed to retrieve featured products."
  const CredentialsRequired := "Email and password are required"
  const InvalidCredentials := "Invalid email or password"
  const AuthenticationFailed := "Authentication failed."

  /** The `{ general: msg }` errors object. */
  function GeneralError(msg: string): Errors
  {
    map[General := msg]
  }

  // ---------------------------------------------------------------------------
  // Store integrity

  /** Some user row has id `id` (the target of the `user_address.user_id` foreign key). */
  predicate HasUser(users: seq<UserRow>, id: nat)
  {
    exists i | 0 <= i < |users| :: users[i].user_id == id
  }

  /** Some user row has email `email` (the `email` column is UNIQUE). */
  predicate EmailTaken(users: seq<UserRow>, email: string)
  {
    exists i | 0 <= i < |users| :: users[i].email == email
  }

  /** The constraints of the schema: AUTO_INCREMENT keys below their counters
      and increasing in insertion order, unique user emails, every address
      referring to an existing user, unique product ids. */
  ghost predicate TablesValid(
    users: seq<UserRow>, addresses: seq<AddressRow>, products: seq<Product>,
    nextUserId: nat, nextAddressId: nat)
  {
    && (forall i | 0 <= i < |users| :: users[i].user_id < nextUserId)
    && (forall i, j | 0 <= i < j < |users| :: users[i].user_id < users[j].user_id)
    && (forall i, j | 0 <= i < j < |users| :: users[i].email != users[j].email)
    && (forall i | 0 <= i < |addresses| :: addresses[i].user_address_id < nextAddressId)
    && (forall i, j | 0 <= i < j < |addresses| ::
          addresses[i].user_address_id < addresses[j].user_address_id)
    && (forall i | 0 <= i < |addresses| :: HasUser(users, addresses[i].user_id))
    && (forall i, j | 0 <= i < j < |products| :: products[i].product_id != products[j].product_id)
  }

  /** `insertUser` writes a row: the payload is valid, the store works and the
      email is not yet taken. */
  predicate InsertUserSucceeds(users: seq<UserRow>, u: Payload, storeFails: bool)
  {
    IsValidUserData(u) && !storeFails && !EmailTaken(users, u.email.value)
  }

  // ---------------------------------------------------------------------------
  // Lookups

  /** The first user row whose email is exactly `email` (`WHERE email = ?`, `rows[0]`). */
  function FindUserByEmail(users: seq<UserRow>, email: string): (r: Option<nat>)
    ensures r.None? <==> !EmailTaken(users, email)
    ensures r.Some? ==> r.value < |users| && users[r.value].email == email
    ensures r.Some? ==> forall i | 0 <= i < r.value :: users[i].email != email
  {
    if users == [] then None
    else if users[0].email == email then Some(0)
    else match FindUserByEmail(users[1..], email)
      case None => None
      case Some(k) => Some(k + 1)
  }

  /** The first available product with id `id` (`WHERE p.product_id = ? AND
      p.available = 1`, `rows[0]`). */
  function FindAvailableProduct(products: seq<Product>, id: int): (r: Option<nat>)
    ensures r.None? <==> forall i | 0 <= i < |products| ::
                          !(products[i].product_id == id && products[i].available == 1)
    ensures r.Some? ==>
      && r.value < |products|
      && products[r.value].product_id == id
      && products[r.value].available == 1
  {
    if products == [] then None
    else if products[0].product_id == id && products[0].available == 1 then Some(0)
    else match FindAvailableProduct(products[1..], id)
      case None => None
      case Some(k) => Some(k + 1)
  }

  // ---------------------------------------------------------------------------
  // Listings: filter, order by created_at descending, skip and take

  /** The stock level the LEFT JOIN attaches to product `p`. */
  function ListRow(p: Product, inventory: map<int, Inventory>): ListedProduct
  {
    ListedProduct(p, if p.product_id in inventory then Some(inventory[p.product_id].stock_level) else None)
  }

  /** The row `getProductById` selects for `p`: the LEFT JOIN attaches the
      stock level and the reorder threshold, or NULLs when `p` has no
      inventory row. */
  function DetailRow(p: Product, inventory: map<int, Inventory>): ProductDetail
  {
    if p.product_id in inventory then
      ProductDetail(p, Some(inventory[p.product_id].stock_level), Some(inventory[p.product_id].reorder_threshold))
    else ProductDetail(p, None, None)
  }

  /** `product p LEFT JOIN inventory i ON p.product_id = i.product_id`. */
  function Join(products: seq<Product>, inventory: map<int, Inventory>): (r: seq<ListedProduct>)
    ensures |r| == |products|
    ensures forall i | 0 <= i < |r| :: r[i] == ListRow(products[i], inventory)
  {
    seq(|products|, i requires 0 <= i < |products| => ListRow(products[i], inventory))
  }

  /** The WHERE clause of `getAllProducts`. */
  predicate IsListed(x: ListedProduct)
  {
    x.product.available == 1
  }

  /** The WHERE clause of `getFeaturedProducts`: a NULL stock level (no
      inventory row) does not satisfy `i.stock_level > 0`. */
  predicate IsFeatured(x: ListedProduct)
  {
    x.product.available == 1 && x.stock_level.Some? && x.stock_level.value > 0
  }

  /** The rows of `rows` that satisfy `keep`, each as often as in `rows`. */
  function Filter(rows: seq<ListedProduct>, keep: ListedProduct -> bool): (r: seq<ListedProduct>)
    ensures forall x :: multiset(r)[x] == if keep(x) then multiset(rows)[x] else 0
  {
    if rows == [] then []
    else
      assert rows == [rows[0]] + rows[1..];
      (if keep(rows[0]) then [rows[0]] else []) + Filter(rows[1..], keep)
  }

  /** `ORDER BY created_at DESC`: no row is newer than one before it. */
  predicate NewestFirst(rows: seq<ListedProduct>)
  {
    forall i, j | 0 <= i < j < |rows| :: rows[i].product.created_at >= rows[j].product.created_at
  }

  /** Inserts `x` into a newest-first sequence. */
  function InsertByDate(x: ListedProduct, rows: seq<ListedProduct>): (r: seq<ListedProduct>)
    requires NewestFirst(rows)
    ensures NewestFirst(r)
    ensures multiset(r) == multiset(rows) + multiset{x}
    ensures forall y | y in r :: y == x || y in rows
  {
    if rows == [] || x.product.created_at >= rows[0].product.created_at then
      HeadIsNewest(rows);
      ConsNewestFirst(x, rows);
      MembersOfInsert([x] + rows, x, rows);
      [x] + rows
    else
      var tail := rows[1..];
      var rest := InsertByDate(x, tail);
      assert rows == [rows[0]] + tail;
      HeadIsNewest(rows);
      NoNewerThan(rest, x, tail, rows[0].product.created_at);
      ConsNewestFirst(rows[0], rest);
      MembersOfInsert([rows[0]] + rest, x, rows);
      [rows[0]] + rest
  }

  /** The first row of a newest-first sequence is no older than any other. */
  lemma HeadIsNewest(rows: seq<ListedProduct>)
    requires NewestFirst(rows)
    ensures |rows| > 0 ==> forall k | 0 <= k < |rows| :: rows[k].product.created_at <= rows[0].product.created_at
    ensures |rows| > 0 ==> forall k | 0 <= k < |rows| - 1 :: rows[1..][k].product.created_at <= rows[0].product.created_at
  {
    if |rows| > 0 {
      forall k | 0 <= k < |rows| - 1 ensures rows[1..][k].product.created_at <= rows[0].product.created_at {
        assert rows[1..][k] == rows[k + 1];
      }
    }
  }

  /** The rows of a sequence with the multiset of `rows` plus `x` are `x` or rows of `rows`. */
  lemma MembersOfInsert(r: seq<ListedProduct>, x: ListedProduct, rows: seq<ListedProduct>)
    requires multiset(r) == multiset(rows) + multiset{x}
    ensures forall y | y in r :: y == x || y in rows
  {
    forall y | y in r ensures y == x || y in rows {
      assert y in multiset(r);
    }
  }

  /** Rows drawn from `x` and `rows`, none newer than `top`, are none newer than `top`. */
  lemma {:induction false} NoNewerThan(rest: seq<ListedProduct>, x: ListedProduct, rows: seq<ListedProduct>, top: int)
    requires multiset(rest) == multiset(rows) + multiset{x}
    requires x.product.created_at <= top
    requires forall k | 0 <= k < |rows| :: rows[k].product.created_at <= top
    ensures forall k | 0 <= k < |rest| :: rest[k].product.created_at <= top
  {
    forall k | 0 <= k < |rest| ensures rest[k].product.created_at <= top {
      assert rest[k] in multiset(rest);
      if rest[k] != x {
        assert rest[k] in multiset(rows);
        var j :| 0 <= j < |rows| && rows[j] == rest[k];
      }
    }
  }

  /** A row no older than every row of a newest-first sequence can lead it. */
  lemma ConsNewestFirst(head: ListedProduct, rest: seq<ListedProduct>)
    requires NewestFirst(rest)
    requires forall k | 0 <= k < |rest| :: rest[k].product.created_at <= head.product.created_at
    ensures NewestFirst([head] + rest)
  {
    var r := [head] + rest;
    forall i, j | 0 <= i < j < |r| ensures r[i].product.created_at >= r[j].product.created_at {
      assert r[j] == rest[j - 1];
      if 0 < i {
        assert r[i] == rest[i - 1];
      }
    }
  }

  /** One order the database may return the rows in; the model does not fix
      how ties on `created_at` are broken. */
  function SortByDate(rows: seq<ListedProduct>): (r: seq<ListedProduct>)
    ensures NewestFirst(r)
    ensures multiset(r) == multiset(rows)
  {
    if rows == [] then []
    else
      assert rows == [rows[0]] + rows[1..];
      InsertByDate(rows[0], SortByDate(rows[1..]))
  }

  /** `LIMIT limit OFFSET offset`: skip `offset` rows, then take at most `limit`. */
  function Window(rows: seq<ListedProduct>, offset: nat, limit: nat): (r: seq<ListedProduct>)
    ensures |r| == if offset >= |rows| then 0 else if limit <= |rows| - offset then limit else |rows| - offset
    ensures forall k | 0 <= k < |r| :: r[k] == rows[offset + k]
  {
    if offset >= |rows| then []
    else if limit <= |rows| - offset then rows[offset..offset + limit]
    else rows[offset..]
  }

  /** What SQL promises of a page: it is the window of SOME newest-first
      ordering of the matching rows. */
  ghost predicate IsPage(rows: seq<ListedProduct>, offset: nat, limit: nat, page: seq<ListedProduct>)
  {
    exists ordered :: multiset(ordered) == multiset(rows) && NewestFirst(ordered)
                   && page == Window(ordered, offset, limit)
  }

  /** A window of a newest-first ordering of `rows` is itself newest first and
      holds only rows of `rows`. */
  lemma {:induction false} WindowOfOrdering(rows: seq<ListedProduct>, ordered: seq<ListedProduct>, offset: nat, limit: nat)
    requires multiset(ordered) == multiset(rows) && NewestFirst(ordered)
    ensures NewestFirst(Window(ordered, offset, limit))
    ensures forall x | x in Window(ordered, offset, limit) :: x in rows
  {
    var page := Window(ordered, offset, limit);
    forall x | x in page ensures x in rows {
      var k :| 0 <= k < |page| && page[k] == x;
      assert ordered[offset + k] == x;
      assert x in multiset(ordered);
    }
  }

  /** The page of `rows` the model returns, with what SQL promises of it. */
  function Page(rows: seq<ListedProduct>, offset: nat, limit: nat): (page: seq<ListedProduct>)
    ensures IsPage(rows, offset, limit, page)
    ensures NewestFirst(page)
    ensures |page| <= limit
    ensures forall x | x in page :: x in rows
  {
    var ordered := SortByDate(rows);
    WindowOfOrdering(rows, ordered, offset, limit);
    Window(ordered, offset, limit)
  }

  // ---------------------------------------------------------------------------
  // The data-access object

  class Dao {
    /** bcrypt with 10 salt rounds. */
    const hasher: Hasher
    var users: seq<UserRow>
    var addresses: seq<AddressRow>
    var products: seq<Product>
    /** The `inventory` table keyed by `product_id`, one row per product. */
    var inventory: map<int, Inventory>
    /** The AUTO_INCREMENT counters of `user` and `user_address`. */
    var nextUserId: nat
    var nextAddressId: nat

    ghost predicate Valid()
      reads this
    {
      RoundTrips(hasher) && TablesValid(users, addresses, products, nextUserId, nextAddressId)
    }

    constructor (hasher: Hasher, users: seq<UserRow>, addresses: seq<AddressRow>,
                 products: seq<Product>, inventory: map<int, Inventory>,
                 nextUserId: nat, nextAddressId: nat)
      requires RoundTrips(hasher)
      requires TablesValid(users, addresses, products, nextUserId, nextAddressId)
      ensures Valid()
      ensures this.hasher == hasher && this.users == users && this.addresses == addresses
      ensures this.products == products && this.inventory == inventory
      ensures this.nextUserId == nextUserId && this.nextAddressId == nextAddressId
    {
      this.hasher := hasher;
      this.users := users;
      this.addresses := addresses;
      this.products := products;
      this.inventory := inventory;
      this.nextUserId := nextUserId;
      this.nextAddressId := nextAddressId;
    }

    /** The row `insertUser` writes for a valid payload `u`: the password
        column holds the hash, never the password. */
    function NewUserRow(u: Payload, id: nat, salt: string): UserRow
      reads this
      requires IsValidUserData(u)
    {
      UserRow(id, u.first_name.value, u.last_name, u.email.value, hasher.hash(u.password.value, salt))
    }

    /** `insertUser`: validates, hashes the password with `salt`, and inserts
        one row. `storeFails` stands for a connection failure: no statement
        reaches the table. A duplicate email violates the UNIQUE index; InnoDB
        has already allocated the next id by then and does not give it back. */
    method InsertUser(u: Payload, salt: string, storeFails: bool) returns (r: Result<nat, Errors>)
      requires Valid()
      modifies this
      ensures Valid()
      ensures addresses == old(addresses) && nextAddressId == old(nextAddressId)
      ensures products == old(products) && inventory == old(inventory)
      ensures !IsValidUserData(u) ==>
        r == Err(UserDataErrors(u)) && users == old(users) && nextUserId == old(nextUserId)
      ensures IsValidUserData(u) && storeFails ==>
        r == Err(GeneralError(InsertUserFailed)) && users == old(users) && nextUserId == old(nextUserId)
      ensures IsValidUserData(u) && !storeFails && EmailTaken(old(users), u.email.value) ==>
        r == Err(GeneralError(InsertUserFailed)) && users == old(users) && nextUserId == old(nextUserId) + 1
      ensures IsValidUserData(u) && !storeFails && !EmailTaken(old(users), u.email.value) ==>
        && r == Ok(old(nextUserId))
        && users == old(users) + [NewUserRow(u, old(nextUserId), salt)]
        && nextUserId == old(nextUserId) + 1
    {
      var isValid, errors := ValidateUserData(u);
      if !isValid {
        return Err(errors);
      }

      var hashedPassword := hasher.hash(u.password.value, salt);
      if storeFails {
        return Err(GeneralError(InsertUserFailed));
      }

      var id := nextUserId;
      nextUserId := nextUserId + 1;
      if EmailTaken(users, u.email.value) {
        return Err(GeneralError(InsertUserFailed));
      }
      UsersGrowKeepsOwners(users, addresses, UserRow(id, u.first_name.value, u.last_name, u.email.value, hashedPassword));
      users := users + [UserRow(id, u.first_name.value, u.last_name, u.email.value, hashedPassword)];
      r := Ok(id);
    }

    /** The row `insertUserAddress` writes for a valid payload `a`. */
    static function NewAddressRow(a: Payload, id: nat, userId: nat): AddressRow
      requires IsValidAddress(a)
    {
      AddressRow(id, userId, a.address_line1.value, a.address_line2,
                 a.city.value, a.state.value, a.postal_code.value, a.country.value)
    }

    /** `insertUserAddress`: validates, then inserts one row keyed by `userId`.
        `storeFails` stands for a connection failure. A `userId` with no user
        row violates the foreign key after InnoDB has allocated the next id,
        which is then lost. */
    method InsertUserAddress(a: Payload, userId: nat, storeFails: bool) returns (r: Result<nat, Errors>)
      requires Valid()
      modifies this
      ensures Valid()
      ensures users == old(users) && nextUserId == old(nextUserId)
      ensures products == old(products) && inventory == old(inventory)
      ensures !IsValidAddress(a) ==>
        r == Err(AddressErrors(a)) && addresses == old(addresses) && nextAddressId == old(nextAddressId)
      ensures IsValidAddress(a) && storeFails ==>
        r == Err(GeneralError(InsertAddressFailed))
        && addresses == old(addresses) && nextAddressId == old(nextAddressId)
      ensures IsValidAddress(a) && !storeFails && !HasUser(users, userId) ==>
        r == Err(GeneralError(InsertAddressFailed))
        && addresses == old(addresses) && nextAddressId == old(nextAddressId) + 1
      ensures IsValidAddress(a) && !storeFails && HasUser(users, userId) ==>
        && r == Ok(old(nextAddressId))
        && addresses == old(addresses) + [NewAddressRow(a, old(nextAddressId), userId)]
        && nextAddressId == old(nextAddressId) + 1
    {
      var isValid, errors := ValidateUserAddress(a);
      if !isValid {
        return Err(errors);
      }

      if storeFails {
        return Err(GeneralError(InsertAddressFailed));
      }

      var id := nextAddressId;
      nextAddressId := nextAddressId + 1;
      if !HasUser(users, userId) {
        return Err(GeneralError(InsertAddressFailed));
      }
      addresses := addresses + [NewAddressRow(a, id, userId)];
      r := Ok(id);
    }

    /** `getAllProducts(limit, offset)`: the available products, newest first,
        `offset` skipped and at most `limit` returned. A negative LIMIT or
        OFFSET is a syntax error in MySQL, so it fails like a store failure. */
    function GetAllProducts(limit: int, offset: int, storeFails: bool): (r: Result<seq<ListedProduct>, Errors>)
      reads this
      ensures r.Err? <==> storeFails || limit < 0 || offset < 0
      ensures r.Err? ==> r.errors == GeneralError(ProductsFailed)
      ensures r.Ok? ==> IsPage(Filter(Join(products, inventory), IsListed), offset, limit, r.value)
      ensures r.Ok? ==> NewestFirst(r.value) && |r.value| <= limit
      ensures r.Ok? ==> forall x | x in r.value ::
        x.product in products && x.product.available == 1 && x == ListRow(x.product, inventory)
    {
      if storeFails || limit < 0 || offset < 0 then Err(GeneralError(ProductsFailed))
      else
        var rows := Filter(Join(products, inventory), IsListed);
        var page := Page(rows, offset, limit);
        JoinedRowsComeFromTable(products, inventory, IsListed);
        Ok(page)
    }

    /** `getFeaturedProducts(limit)`: the available products with stock on
        hand, newest first, at most `limit` of them. */
    function GetFeaturedProducts(limit: int, storeFails: bool): (r: Result<seq<ListedProduct>, Errors>)
      reads this
      ensures r.Err? <==> storeFails || limit < 0
      ensures r.Err? ==> r.errors == GeneralError(FeaturedFailed)
      ensures r.Ok? ==> IsPage(Filter(Join(products, inventory), IsFeatured), 0, limit, r.value)
      ensures r.Ok? ==> NewestFirst(r.value) && |r.value| <= limit
      ensures r.Ok? ==> forall x | x in r.value ::
        && x.product in products && x.product.available == 1 && x == ListRow(x.product, inventory)
        && x.product.product_id in inventory && inventory[x.product.product_id].stock_level > 0
    {
      if storeFails || limit < 0 then Err(GeneralError(FeaturedFailed))
      else
        var rows := Filter(Join(products, inventory), IsFeatured);
        var page := Page(rows, 0, limit);
        JoinedRowsComeFromTable(products, inventory, IsFeatured);
        Ok(page)
    }

    /** `getProductById(productId)`: `productId` is the result of `parseInt`,
        `None` standing for NaN. NaN and 0 are rejected before any lookup. */
    function GetProductById(productId: Option<int>, storeFails: bool): (r: Result<ProductDetail, Errors>)
      reads this
      ensures productId.None? || productId.value == 0 ==> r == Err(GeneralError(ProductIdRequired))
      ensures productId.Some? && productId.value != 0 && storeFails ==> r == Err(GeneralError(ProductFailed))
      ensures productId.Some? && productId.value != 0 && !storeFails ==>
        (r.Ok? <==> exists i | 0 <= i < |products| ::
                      products[i].product_id == productId.value && products[i].available == 1)
      ensures productId.Some? && productId.value != 0 && !storeFails && r.Err? ==>
        r.errors == GeneralError(ProductNotFound)
      ensures r.Ok? ==> && productId.Some? && r.value.product in products
                        && r.value.product.product_id == productId.value && r.value.product.available == 1
      ensures r.Ok? ==> r.value == DetailRow(r.value.product, inventory)
    {
      if productId.None? || productId.value == 0 then Err(GeneralError(ProductIdRequired))
      else if storeFails then Err(GeneralError(ProductFailed))
      else match FindAvailableProduct(products, productId.value)
        case None => Err(GeneralError(ProductNotFound))
        case Some(i) => Ok(DetailRow(products[i], inventory))
    }

    /** `authenticateUser(email, password)`: looks the email up and compares
        the password with the stored hash. An unknown email and a wrong
        password give the same error. */
    function AuthenticateUser(email: Option<string>, password: Option<string>, storeFails: bool): (r: Result<User, Errors>)
      reads this
      ensures IsEmptyOrNull(email) || IsEmptyOrNull(password) ==> r == Err(GeneralError(CredentialsRequired))
      ensures !IsEmptyOrNull(email) && !IsEmptyOrNull(password) && storeFails ==>
        r == Err(GeneralError(AuthenticationFailed))
      ensures !IsEmptyOrNull(email) && !IsEmptyOrNull(password) && !storeFails && !EmailTaken(users, email.value) ==>
        r == Err(GeneralError(InvalidCredentials))
      ensures r.Err? && !IsEmptyOrNull(email) && !IsEmptyOrNull(password) && !storeFails ==>
        r.errors == GeneralError(InvalidCredentials)
      ensures r.Ok? ==> exists i | 0 <= i < |users| ::
        && users[i].email == email.value
        && hasher.verify(password.value, users[i].password_hash)
        && r.value == WithoutPasswordHash(users[i])
    {
      if IsEmptyOrNull(email) || IsEmptyOrNull(password) then Err(GeneralError(CredentialsRequired))
      else if storeFails then Err(GeneralError(AuthenticationFailed))
      else match FindUserByEmail(users, email.value)
        case None => Err(GeneralError(InvalidCredentials))
        case Some(i) =>
          if !hasher.verify(password.value, users[i].password_hash) then Err(GeneralError(InvalidCredentials))
          else Ok(WithoutPasswordHash(users[i]))
    }
  }

  /** In a valid store the email lookup finds the one row with that email. */
  lemma {:induction false} FindUserByEmailUnique(users: seq<UserRow>, i: nat)
    requires i < |users|
    requires forall a, b | 0 <= a < b < |users| :: users[a].email != users[b].email
    ensures FindUserByEmail(users, users[i].email) == Some(i)
  {
  }

  /** Login succeeds exactly when some stored row has that email and its hash
      verifies the password (given non-empty credentials and a working store). */
  lemma AuthenticateSucceedsIff(dao: Dao, email: string, password: string)
    requires dao.Valid()
    requires !IsEmptyOrNull(Some(email)) && !IsEmptyOrNull(Some(password))
    ensures dao.AuthenticateUser(Some(email), Some(password), false).Ok? <==>
      exists i | 0 <= i < |dao.users| ::
        dao.users[i].email == email && dao.hasher.verify(password, dao.users[i].password_hash)
  {
    if i :| 0 <= i < |dao.users| && dao.users[i].email == email
                                 && dao.hasher.verify(password, dao.users[i].password_hash) {
      FindUserByEmailUnique(dao.users, i);
    }
  }

  /** The round trip of registration and login: a stored row whose hash was
      made from `password` authenticates with that password, and the user
      returned is that row without its hash. */
  lemma AuthenticateWithStoredPassword(dao: Dao, i: nat, password: string, salt: string)
    requires dao.Valid()
    requires i < |dao.users|
    requires dao.users[i].password_hash == dao.hasher.hash(password, salt)
    requires !IsEmptyOrNull(Some(dao.users[i].email)) && !IsEmptyOrNull(Some(password))
    ensures dao.AuthenticateUser(Some(dao.users[i].email), Some(password), false)
            == Ok(WithoutPasswordHash(dao.users[i]))
  {
    FindUserByEmailUnique(dao.users, i);
  }

  /** Appending a user row keeps every address's owner. */
  lemma UsersGrowKeepsOwners(users: seq<UserRow>, addresses: seq<AddressRow>, row: UserRow)
    requires forall i | 0 <= i < |addresses| :: HasUser(users, addresses[i].user_id)
    ensures forall i | 0 <= i < |addresses| :: HasUser(users + [row], addresses[i].user_id)
  {
    forall i | 0 <= i < |addresses| ensures HasUser(users + [row], addresses[i].user_id) {
      var j :| 0 <= j < |users| && users[j].user_id == addresses[i].user_id;
      assert (users + [row])[j] == users[j];
    }
  }

  /** Every joined row that passes a filter is the join of a product of the table. */
  lemma JoinedRowsComeFromTable(products: seq<Product>, inventory: map<int, Inventory>, keep: ListedProduct -> bool)
    ensures forall x | x in Filter(Join(products, inventory), keep) ::
      x.product in products && x == ListRow(x.product, inventory) && keep(x)
  {
    var joined := Join(products, inventory);
    var rows := Filter(joined, keep);
    forall x | x in rows ensures x.product in products && x == ListRow(x.product, inventory) && keep(x) {
      assert multiset(rows)[x] > 0;
      assert x in joined;
      var i :| 0 <= i < |joined| && joined[i] == x;
      assert products[i] == x.product;
    }
  }
}
