/** The request handlers of server/index.js, reduced to their decisions: which
    data-access calls they make, in which order, and which status and body
    they answer with. */
module Server {
  import opened Common
  import opened StringUtil
  import opened Validation
  import opened Database

  /** The payload `jwt.sign` signs, with the lifetime it is given; the signing
      itself and the secret are not modelled. */
  datatype Token = Token(user_id: nat, email: string, expiresInSeconds: nat)

  /** `expiresIn: '24h'`. */
  const TokenLifetime: nat := 24 * 60 * 60

  /** The bodies the handlers send. */
  datatype Body =
    | Text(text: string)
    | ErrorsBody(errors: Errors)
    | LoginBody(message: string, token: Token, user: User)
    | ProductsBody(success: bool, products: seq<ListedProduct>, count: nat)
    | ProductBody(success: bool, product: ProductDetail)

  datatype Response = Response(status: nat, body: Body)

  const Registered := "User registered successfully"
  const LoginSuccessful := "Login successful"

  const DefaultListLimit := 20
  const DefaultListOffset := 0
  const DefaultFeaturedLimit := 8

  // ---------------------------------------------------------------------------
  // Query parameters

  /** JavaScript truthiness of a `parseInt` result: NaN (`None`) and 0 are falsy. */
  predicate Truthy(parsed: Option<int>)
  {
    parsed.Some? && parsed.value != 0
  }

  /** `parseInt(x) || fallback`: an absent or unparseable parameter (NaN) and
      an explicit 0 both give the fallback; any other number is kept, even a
      negative one. */
  function QueryInt(parsed: Option<int>, fallback: int): (n: int)
    ensures parsed.None? || parsed.value == 0 ==> n == fallback
    ensures parsed.Some? && parsed.value != 0 ==> n == parsed.value
  {
    if Truthy(parsed) then parsed.value else fallback
  }

  // ---------------------------------------------------------------------------
  // POST /api/register

  /** `/api/register`: inserts the user, stops with 400 if that fails, and
      otherwise inserts the address keyed by the new user id. The two writes
      are separate statements: when the second fails the answer is 400 and the
      user row stays. */
  method Register(dao: Dao, body: Payload, salt: string, userStoreFails: bool, addressStoreFails: bool)
    returns (resp: Response)
    requires dao.Valid()
    modifies dao
    ensures dao.Valid()
    ensures dao.products == old(dao.products) && dao.inventory == old(dao.inventory)
    ensures resp.status == 201 || resp.status == 400
    ensures !IsValidUserData(body) ==>
      && resp == Response(400, ErrorsBody(UserDataErrors(body)))
      && dao.users == old(dao.users) && dao.addresses == old(dao.addresses)
      && dao.nextUserId == old(dao.nextUserId) && dao.nextAddressId == old(dao.nextAddressId)
    ensures IsValidUserData(body) && !InsertUserSucceeds(old(dao.users), body, userStoreFails) ==>
      && resp == Response(400, ErrorsBody(GeneralError(InsertUserFailed)))
      && dao.users == old(dao.users) && dao.addresses == old(dao.addresses)
      && dao.nextAddressId == old(dao.nextAddressId)
    ensures IsValidUserData(body) && userStoreFails ==> dao.nextUserId == old(dao.nextUserId)
    ensures IsValidUserData(body) && !userStoreFails && EmailTaken(old(dao.users), body.email.value) ==>
      dao.nextUserId == old(dao.nextUserId) + 1
    ensures InsertUserSucceeds(old(dao.users), body, userStoreFails) ==>
      && dao.users == old(dao.users) + [dao.NewUserRow(body, old(dao.nextUserId), salt)]
      && dao.nextUserId == old(dao.nextUserId) + 1
    ensures InsertUserSucceeds(old(dao.users), body, userStoreFails) && IsValidAddress(body) && !addressStoreFails ==>
      && resp == Response(201, Text(Registered))
      && dao.addresses == old(dao.addresses) + [Dao.NewAddressRow(body, old(dao.nextAddressId), old(dao.nextUserId))]
      && dao.nextAddressId == old(dao.nextAddressId) + 1
    ensures InsertUserSucceeds(old(dao.users), body, userStoreFails) && !IsValidAddress(body) ==>
      && resp == Response(400, ErrorsBody(AddressErrors(body)))
      && dao.addresses == old(dao.addresses) && dao.nextAddressId == old(dao.nextAddressId)
    ensures InsertUserSucceeds(old(dao.users), body, userStoreFails) && IsValidAddress(body) && addressStoreFails ==>
      && resp == Response(400, ErrorsBody(GeneralError(InsertAddressFailed)))
      && dao.addresses == old(dao.addresses) && dao.nextAddressId == old(dao.nextAddressId)
    ensures resp.status == 201 ==>
      dao.AuthenticateUser(body.email, body.password, false)
        == Ok(User(old(dao.nextUserId), body.first_name.value, body.last_name, body.email.value))
  {
    var userInsertResult := dao.InsertUser(body, salt, userStoreFails);
    if userInsertResult.Err? {
      return Response(400, ErrorsBody(userInsertResult.errors));
    }

    assert dao.users[|dao.users| - 1].user_id == userInsertResult.value;
    var userAddressInsertResult := dao.InsertUserAddress(body, userInsertResult.value, addressStoreFails);

    if userInsertResult.Ok? && userAddressInsertResult.Ok? {
      resp := Response(201, Text(Registered));
      LoginAfterRegister(dao, body, salt);
    } else {
      resp := Response(400, ErrorsBody(userAddressInsertResult.errors));
    }
  }

  /** After a successful user insert the new last row authenticates with the
      registered email and password. */
  lemma LoginAfterRegister(dao: Dao, body: Payload, salt: string)
    requires dao.Valid() && IsValidUserData(body) && |dao.users| > 0
    requires dao.users[|dao.users| - 1] == dao.NewUserRow(body, dao.users[|dao.users| - 1].user_id, salt)
    ensures dao.AuthenticateUser(body.email, body.password, false)
      == Ok(User(dao.users[|dao.users| - 1].user_id, body.first_name.value, body.last_name, body.email.value))
  {
    ValidUserDataFields(body);
    PatternEmailIsNotEmpty(body.email.value);
    PatternPasswordIsNotEmpty(body.password.value);
    AuthenticateWithStoredPassword(dao, |dao.users| - 1, body.password.value, salt);
  }

  // ---------------------------------------------------------------------------
  // POST /api/login

  /** `/api/login`: 401 with the data-access errors unchanged on any failure;
      otherwise 200 with a token for the user's id and email and the user
      without its hash. */
  function Login(dao: Dao, email: Option<string>, password: Option<string>, storeFails: bool): (resp: Response)
    reads dao
    ensures resp.status == 200 || resp.status == 401
    ensures resp.status == 401 <==> dao.AuthenticateUser(email, password, storeFails).Err?
    ensures resp.status == 401 ==> resp.body == ErrorsBody(dao.AuthenticateUser(email, password, storeFails).errors)
    ensures resp.status == 200 ==> exists i | 0 <= i < |dao.users| ::
      && dao.users[i].email == email.value
      && dao.hasher.verify(password.value, dao.users[i].password_hash)
      && resp.body == LoginBody(LoginSuccessful,
                                Token(dao.users[i].user_id, dao.users[i].email, TokenLifetime),
                                WithoutPasswordHash(dao.users[i]))
  {
    var authResult := dao.AuthenticateUser(email, password, storeFails);
    if authResult.Err? then Response(401, ErrorsBody(authResult.errors))
    else
      var user := authResult.value;
      Response(200, LoginBody(LoginSuccessful, Token(user.user_id, user.email, TokenLifetime), user))
  }

  /** A login cannot tell an unknown email from a wrong password: both answer
      401 with the same body. */
  lemma LoginHidesWhichCredentialFailed(dao: Dao, unknown: string, password: string, i: nat, wrong: string)
    requires dao.Valid()
    requires !IsEmptyOrNull(Some(unknown)) && !IsEmptyOrNull(Some(password)) && !IsEmptyOrNull(Some(wrong))
    requires !EmailTaken(dao.users, unknown)
    requires i < |dao.users| && !IsEmptyOrNull(Some(dao.users[i].email))
    requires !dao.hasher.verify(wrong, dao.users[i].password_hash)
    ensures Login(dao, Some(unknown), Some(password), false) == Login(dao, Some(dao.users[i].email), Some(wrong), false)
    ensures Login(dao, Some(unknown), Some(password), false) == Response(401, ErrorsBody(GeneralError(InvalidCredentials)))
  {
    FindUserByEmailUnique(dao.users, i);
  }

  /** Logging in with the password a stored hash was made from answers 200
      with a 24-hour token for that user's id and email. */
  lemma LoginWithStoredPassword(dao: Dao, i: nat, password: string, salt: string)
    requires dao.Valid()
    requires i < |dao.users|
    requires dao.users[i].password_hash == dao.hasher.hash(password, salt)
    requires !IsEmptyOrNull(Some(dao.users[i].email)) && !IsEmptyOrNull(Some(password))
    ensures Login(dao, Some(dao.users[i].email), Some(password), false)
      == Response(200, LoginBody(LoginSuccessful,
                                 Token(dao.users[i].user_id, dao.users[i].email, TokenLifetime),
                                 WithoutPasswordHash(dao.users[i])))
  {
    AuthenticateWithStoredPassword(dao, i, password, salt);
  }

  // ---------------------------------------------------------------------------
  // GET /api/products, /api/products/featured, /api/products/:id

  /** `/api/products?limit&offset`: 500 when the data-access call fails,
      otherwise 200 with the page and its length. */
  function ListProducts(dao: Dao, limitParam: Option<int>, offsetParam: Option<int>, storeFails: bool): (resp: Response)
    reads dao
    ensures resp.status == 200 || resp.status == 500
    ensures resp.status == 500 <==>
      storeFails || QueryInt(limitParam, DefaultListLimit) < 0 || QueryInt(offsetParam, DefaultListOffset) < 0
    ensures resp.status == 500 ==> resp.body == ErrorsBody(GeneralError(ProductsFailed))
    ensures resp.status == 200 ==>
      && resp.body.ProductsBody? && resp.body.success && resp.body.count == |resp.body.products|
      && var limit := QueryInt(limitParam, DefaultListLimit);
         var offset := QueryInt(offsetParam, DefaultListOffset);
         && limit >= 0 && offset >= 0
         && IsPage(Filter(Join(dao.products, dao.inventory), IsListed), offset, limit, resp.body.products)
  {
    var limit := QueryInt(limitParam, DefaultListLimit);
    var offset := QueryInt(offsetParam, DefaultListOffset);
    var result := dao.GetAllProducts(limit, offset, storeFails);
    if result.Err? then Response(500, ErrorsBody(result.errors))
    else Response(200, ProductsBody(true, result.value, |result.value|))
  }

  /** Without usable `limit` and `offset` parameters the listing is the 20
      newest available products. */
  lemma DefaultListing(dao: Dao, limitParam: Option<int>, offsetParam: Option<int>)
    requires !Truthy(limitParam) && !Truthy(offsetParam)
    ensures ListProducts(dao, limitParam, offsetParam, false).status == 200
    ensures var products := ListProducts(dao, limitParam, offsetParam, false).body.products;
      && |products| <= 20 && NewestFirst(products)
      && IsPage(Filter(Join(dao.products, dao.inventory), IsListed), 0, 20, products)
  {
  }

  /** A negative `limit` or `offset` passes `parseInt(x) || d` unchanged and
      makes the query fail: the answer is 500. */
  lemma NegativeQueryFails(dao: Dao, limitParam: Option<int>, offsetParam: Option<int>, storeFails: bool)
    requires (limitParam.Some? && limitParam.value < 0) || (offsetParam.Some? && offsetParam.value < 0)
    ensures ListProducts(dao, limitParam, offsetParam, storeFails) == Response(500, ErrorsBody(GeneralError(ProductsFailed)))
  {
  }

  /** `/api/products/featured?limit`: 500 when the data-access call fails,
      otherwise 200 with the products and their number; the limit defaults to 8. */
  function ListFeatured(dao: Dao, limitParam: Option<int>, storeFails: bool): (resp: Response)
    reads dao
    ensures resp.status == 200 || resp.status == 500
    ensures resp.status == 500 <==> storeFails || QueryInt(limitParam, DefaultFeaturedLimit) < 0
    ensures resp.status == 500 ==> resp.body == ErrorsBody(GeneralError(FeaturedFailed))
    ensures resp.status == 200 ==>
      && resp.body.ProductsBody? && resp.body.success && resp.body.count == |resp.body.products|
      && var limit := QueryInt(limitParam, DefaultFeaturedLimit);
         && limit >= 0
         && IsPage(Filter(Join(dao.products, dao.inventory), IsFeatured), 0, limit, resp.body.products)
  {
    var limit := QueryInt(limitParam, DefaultFeaturedLimit);
    var result := dao.GetFeaturedProducts(limit, storeFails);
    if result.Err? then Response(500, ErrorsBody(result.errors))
    else Response(200, ProductsBody(true, result.value, |result.value|))
  }

  /** `/api/products/:id`: `idParam` is `parseInt(req.params.id)`. Every
      data-access failure, a store failure included, answers 404. */
  function ShowProduct(dao: Dao, idParam: Option<int>, storeFails: bool): (resp: Response)
    reads dao
    ensures resp.status == 200 || resp.status == 404
    ensures resp.status == 404 <==> dao.GetProductById(idParam, storeFails).Err?
    ensures resp.status == 404 ==> resp.body == ErrorsBody(dao.GetProductById(idParam, storeFails).errors)
    ensures Truthy(idParam) && !storeFails ==>
      (resp.status == 200 <==> exists i | 0 <= i < |dao.products| ::
                                 dao.products[i].product_id == idParam.value && dao.products[i].available == 1)
    ensures resp.status == 200 ==>
      && resp.body.ProductBody? && resp.body.success && idParam.Some?
      && resp.body.product.product in dao.products
      && resp.body.product.product.product_id == idParam.value
      && resp.body.product.product.available == 1
      && resp.body.product == DetailRow(resp.body.product.product, dao.inventory)
  {
    var result := dao.GetProductById(idParam, storeFails);
    if result.Err? then Response(404, ErrorsBody(result.errors))
    else Response(200, ProductBody(true, result.value))
  }

  /** With unique product ids, asking for an available product by its
      (non-zero) id answers 200 with exactly that product and its inventory. */
  lemma ShowAvailableProduct(dao: Dao, i: nat)
    requires dao.Valid()
    requires i < |dao.products| && dao.products[i].available == 1 && dao.products[i].product_id != 0
    ensures ShowProduct(dao, Some(dao.products[i].product_id), false)
      == Response(200, ProductBody(true, DetailRow(dao.products[i], dao.inventory)))
  {
    var r := dao.GetProductById(Some(dao.products[i].product_id), false);
    assert r.Ok?;
  }

  /** An id that is not a number or is 0, and a failing store, all answer 404. */
  lemma ShowProductFailuresAre404(dao: Dao, idParam: Option<int>, storeFails: bool)
    requires !Truthy(idParam) || storeFails
    ensures ShowProduct(dao, idParam, storeFails).status == 404
  {
  }
}
