# Urban Loft storefront server, modelled in Dafny

This project models the server core of the Urban Loft storefront:
- the string helpers (`server/utils/StringUtil.js`);
- the registration validators (`server/utils/ValidationUtil.js`);
- the data-access object over the MySQL tables `user`, `user_address`, `product` and `inventory` (`server/database/dao.js`);
- the Express handlers for registration, login and the product listings (`server/index.js`).

It proves properties of that model.

Files and modules:
- `common.dfy` (`Common`): `Option` and `Result`. `Option` stands for a JSON field that may be absent or `null`, and for a `parseInt` result that may be NaN.
- `string_util.dfy` (`StringUtil`): the ECMAScript whitespace set, `trim`, and `isEmptyOrNull` / `isNotEmptyOrNull`. It proves that a string is "empty or null" exactly when it is missing or made only of whitespace, and that whitespace padding never changes the verdict.
- `validation.dfy` (`Validation`): `validateUserData` and `validateUserAddress` as loop-free imperative methods that build the `errors` object field by field. Each is proved equal to a declarative error map, which states for every field when it is reported and with which message. Both regular expressions are read literally. The email pattern is also given a single-pass reading, proved equivalent to it.
- `dao.dfy` (`Database`): the tables are `seq` fields of the class `Dao`, and the AUTO_INCREMENT counters are `nat` fields. The inserts are methods that append rows. The reads are functions. The integrity the schema enforces is the invariant `Dao.Valid`:
  - ids are below the counters and increase;
  - user emails are unique;
  - every address has a user;
  - product ids are unique.

  bcrypt is a pair of functions, `hash` and `verify`, assumed only to round-trip. A listing is specified by `IsPage`: it is the window `OFFSET offset LIMIT limit` of some newest-first order of the matching rows.
- `server.dfy` (`Server`): each handler maps data-access results to a status and a body:
  - registration is a method over the `Dao`;
  - login and the product routes are functions of it.

  It proves the login round trip after registration, that a login answer hides which credential was wrong, and the defaults of `parseInt(x) || d`.

A database failure the model does not derive from the tables (a lost connection, or for the reads any failed statement) is an explicit boolean parameter of each data-access call, the store-failure flag. For the two inserts it means a connection failure only; their constraint violations follow from the tables. The bcrypt salt is a parameter too.

Behaviours of the code that the model keeps as written:
- `/api/products/:id` answers 404 for every data-access failure, a database failure included (`server/index.js:125-127`). The other read routes answer 500 for a database failure.
- A product id of `0` is rejected as "Valid product ID is required", because `!productId` is true for 0 (`server/database/dao.js:136`).
- A negative `limit` or `offset` is not replaced by its default, because `parseInt(x) || d` keeps any non-zero number. It reaches the SQL text, which MySQL refuses, so the route answers 500.
- The server keeps no session state: a login only issues a token, and no route reads one back.

## Model

| member | source | states |
|---|---|---|
| StringUtil.TrimStartRemovesPrefix | server/utils/StringUtil.js:2 | removing leading whitespace leaves a suffix of the input, drops only whitespace, and the result is empty or starts with a non-whitespace character |
| StringUtil.TrimEndRemovesSuffix | server/utils/StringUtil.js:2 | removing trailing whitespace leaves a prefix of the input, drops only whitespace, and the result is empty or ends with a non-whitespace character |
| StringUtil.TrimIsInfix | server/utils/StringUtil.js:2 | `trim()` returns a contiguous slice of the input with only whitespace cut off either side, and the slice starts and ends with non-whitespace |
| StringUtil.TrimEmptyIffBlank | server/utils/StringUtil.js:2 | `str.trim().length === 0` holds exactly when every character of `str` is whitespace |
| StringUtil.IsEmptyOrNull | server/utils/StringUtil.js:1-3 | true exactly when the value is missing or consists only of whitespace |
| StringUtil.IsNotEmptyOrNull | server/utils/StringUtil.js:5-7 | the negation of `isEmptyOrNull`: a value is present and has at least one non-whitespace character |
| StringUtil.TrimIgnoresPadding | server/utils/StringUtil.js:2 | surrounding a string with whitespace on either side does not change its trimmed form |
| StringUtil.TrimStartIgnoresPadding | server/utils/StringUtil.js:2 | leading whitespace padding does not change the result of removing leading whitespace |
| StringUtil.TrimEndIgnoresPadding | server/utils/StringUtil.js:2 | trailing whitespace padding does not change the result of removing trailing whitespace |
| StringUtil.IsEmptyOrNullIgnoresPadding | server/utils/StringUtil.js:1-3 | whitespace padding never changes whether a field counts as empty |
| Validation.EmailOkIffPattern | server/utils/ValidationUtil.js:7 | the single-pass check accepts exactly the strings `^[^\s@]+@[^\s@]+\.[^\s@]+$` matches |
| Validation.UserDataErrors | server/utils/ValidationUtil.js:3-31 | the errors object holds only `first_name`, `email` and `password`, never `last_name`; each key is present exactly when its check fails, and `first_name` carries its message |
| Validation.EmailErrorCases | server/utils/ValidationUtil.js:14-20 | a missing or blank email is reported as "Email is required"; a present email is reported as invalid exactly when it does not match the pattern |
| Validation.PasswordErrorCases | server/utils/ValidationUtil.js:22-28 | a missing or blank password is reported as "Password is required"; a present one is reported as too weak exactly when it does not match the pattern |
| Validation.ValidUserDataFields | server/utils/ValidationUtil.js:3-31 | accepted user data has a non-blank first name, an email matching the email pattern and a password matching the password pattern |
| Validation.PatternPasswordIsNotEmpty | server/utils/ValidationUtil.js:6 | a password the pattern accepts is never empty or blank |
| Validation.PatternEmailIsNotEmpty | server/utils/ValidationUtil.js:7 | an email the pattern accepts is never empty or blank |
| Validation.ValidateUserData | server/utils/ValidationUtil.js:3-31 | the step-by-step updates build exactly the declarative error map, and `isValid` is true exactly when it is empty |
| Validation.AddressErrors | server/utils/ValidationUtil.js:37-56 | the errors object holds exactly the blank required address fields, each with its own message, and never `address_line2` |
| Validation.ValidateUserAddress | server/utils/ValidationUtil.js:33-59 | the step-by-step updates build exactly the declarative error map; `isValid` holds exactly when all five required fields are non-blank |
| Database.FindUserByEmail | server/database/dao.js:206-216 | finds the first row with exactly that email, and finds none exactly when no row has it |
| Database.FindAvailableProduct | server/database/dao.js:140-156 | finds an available product with that id, and finds none exactly when no product with that id is available |
| Database.Filter | server/database/dao.js:112 | keeps every row satisfying the WHERE clause, as often as it occurs, and no other row |
| Database.InsertByDate | server/database/dao.js:113 | inserting into a newest-first sequence keeps it newest-first and adds exactly the one row |
| Database.SortByDate | server/database/dao.js:113 | the result is newest-first and a permutation of the input |
| Database.Window | server/database/dao.js:114 | `LIMIT OFFSET`: the result has the right length and is the run of rows starting at `offset` |
| Database.WindowOfOrdering | server/database/dao.js:113-114 | a window of a newest-first permutation is newest-first and holds only rows of the input |
| Database.Page | server/database/dao.js:106-115 | the returned rows are a page in the sense of `IsPage`, newest-first, at most `limit` of them, all from the input |
| Database.Dao.constructor | server/database/dao.js:12-14 | a data-access object over tables that satisfy the schema's integrity is valid |
| Database.Dao.InsertUser | server/database/dao.js:29-56 | invalid data returns the validator's errors and writes nothing; a connection failure or a duplicate email returns the general error and writes no row, the duplicate (rejected by the UNIQUE index) using up the next id as InnoDB does; otherwise exactly one row with the hashed password and the next id is appended; validity is kept |
| Database.Dao.InsertUserAddress | server/database/dao.js:70-98 | invalid data returns the validator's errors; a connection failure or an unknown user id returns the general error and writes no row, the foreign-key rejection using up the next id; otherwise one row keyed by the user id is appended; nothing else changes and validity is kept |
| Database.Dao.GetAllProducts | server/database/dao.js:106-128 | fails exactly on a store failure or a negative limit or offset; otherwise returns a newest-first page of the available products, each joined with its own stock level, at most `limit` of them |
| Database.Dao.GetFeaturedProducts | server/database/dao.js:171-193 | fails exactly on a store failure or a negative limit; otherwise returns at most `limit` newest-first available products, each with an inventory row of positive stock |
| Database.Dao.GetProductById | server/database/dao.js:135-164 | NaN or 0 is rejected before the lookup; a store failure gives "Failed to retrieve product."; otherwise it succeeds exactly when an available product has the id and fails only with "Product not found"; a found product has that id, is available, and carries the stock level and reorder threshold of its inventory row (both NULL without one) |
| Database.Dao.AuthenticateUser | server/database/dao.js:201-232 | blank credentials, a store failure and an unknown email each give their own error; any other failure is "Invalid email or password"; success returns a row with that email whose hash verifies the password, without its hash |
| Database.FindUserByEmailUnique | server/database/dao.js:206-216 | with unique emails, the lookup of a row's email finds that row |
| Database.AuthenticateSucceedsIff | server/database/dao.js:201-224 | with non-empty credentials and a working store, login succeeds exactly when some row has that email and its hash verifies the password |
| Database.AuthenticateWithStoredPassword | server/database/dao.js:37-38 | a row whose hash was made from a password authenticates with that password and yields the row without its hash |
| Database.UsersGrowKeepsOwners | server/database/dao.js:35-48 | appending a user row keeps every address's owning user present |
| Database.JoinedRowsComeFromTable | server/database/dao.js:108-112 | every joined and filtered row is a product of the table with its own inventory row attached, and it satisfies the filter |
| Server.QueryInt | server/index.js:73-74 | the logical-or default after `parseInt`: NaN and 0 give the default; any other number, negative ones included, is kept |
| Server.Register | server/index.js:15-37 | invalid user data or a failed user insert answers 400 with those errors and writes nothing; otherwise the user row is appended, and the address insert for the new id decides 201 or 400; a failed address leaves the user row in place; each INSERT that reaches a table advances that table's AUTO_INCREMENT counter by one, a duplicate email included, while a validation failure or connection failure leaves it unchanged; after 201 the registered email and password log in |
| Server.LoginAfterRegister | server/index.js:15-37 | the user row just registered authenticates with the registered email and password and yields that user |
| Server.Login | server/index.js:39-68 | answers 401 exactly when authentication fails, with its errors unchanged; otherwise 200 with a 24-hour token for the authenticated row's id and email and the row without its hash |
| Server.LoginHidesWhichCredentialFailed | server/index.js:45-48 | an unknown email and a wrong password for a known email get the identical 401 answer |
| Server.LoginWithStoredPassword | server/index.js:50-63 | a stored row's email and password answer 200 with that row's token and user |
| Server.ListProducts | server/index.js:71-93 | answers 500 exactly on a store failure or a negative effective limit or offset; otherwise 200 with a page of the available products and its exact count |
| Server.DefaultListing | server/index.js:73-74 | without usable query parameters the answer is 200 with at most 20 newest available products from offset 0 |
| Server.NegativeQueryFails | server/index.js:73-82 | a negative `limit` or `offset` answers 500 with "Failed to retrieve products." |
| Server.ListFeatured | server/index.js:95-116 | answers 500 exactly on a store failure or a negative effective limit; otherwise 200 with the featured page (default limit 8) and its count |
| Server.ShowProduct | server/index.js:118-138 | answers 404 exactly when the lookup fails, with its errors; for a non-zero id and a working store, 200 exactly when an available product has that id, with that product and its inventory columns |
| Server.ShowAvailableProduct | server/index.js:118-133 | with unique product ids, an available product's non-zero id answers 200 with exactly that product and its inventory row |
| Server.ShowProductFailuresAre404 | server/index.js:120-127 | a non-numeric or zero id, and a store failure, answer 404 |

## Left out

- Express routing, CORS, JSON parsing, `res.send`/`res.json` serialisation, `GET /` and logging: not modelled. Handlers are functions from inputs to a status and a body.
- The `try`/`catch` 500 answers in `server/index.js` ("Insert failed", "Login failed", and so on) are not modelled. In the model the data-access layer reports every failure as a result, so no exception reaches a handler.
- `jwt.sign` is not modelled: the token is its payload and lifetime only. The signature, the secret, and the `iat`/`exp` claims depend on the clock and the environment.
- bcrypt is not modelled beyond its round trip (`verify(p, hash(p, s))`). Salt generation is a parameter. No collision resistance is assumed, so nothing is proved about a wrong password that happens to verify.
- `parseInt` is not modelled. Handlers take its result (`None` for NaN), so parsing digits and prefixes of the query string is outside the model.
- Server.ListProducts, Server.ListFeatured, Database.Dao.GetAllProducts and Database.Dao.GetFeaturedProducts take the query values as exact integers. The model does not capture three effects: JavaScript numbers lose precision above 2^53; `LIMIT ${parseInt(limit)}` parses the number's string form a second time, so `1e21` becomes `LIMIT 1`; and MySQL refuses LIMIT and OFFSET values outside its unsigned 64-bit range. For such values the model answers 200 with the page the exact integer selects.
- Non-string JSON values in a request body (numbers, arrays, objects) are not modelled: a field is a string or absent.
- `null` and `undefined` are not told apart: both are `None`. The mysql2 driver's `execute` rejects an `undefined` bind value, which the model does not capture. So a body without a `last_name` key fails `insertUser` (400, no row written), and a body without an `address_line2` key answers 400 after the user row has been written; the model stores NULL for both and answers 201. Only callers other than the storefront's form see this, because the form sends "" for empty inputs.
- The database server is a set of in-memory tables. The model does not capture concurrency between requests or the order among rows with the same `created_at`; ties are left open by `IsPage` and are not fixed.
- Database.Dao.InsertUser, Server.Register, Database.Dao.AuthenticateUser and Database.FindUserByEmail compare emails by exact equality (`EmailTaken`). MySQL compares them under the `email` column's collation, both in the UNIQUE index and in `WHERE email = ?`. Under a case- or accent-insensitive collation, inserting `A@B.com` while `a@b.com` is stored fails (400), and a login matches either spelling; the model appends the row, answers 201, and matches only the exact spelling. Which collation applies depends on the schema and server defaults, which are not modelled.
- Duplicate emails and unknown address owners are rejected because of the schema's UNIQUE and FOREIGN KEY constraints. They are modelled as statement failures. Other column constraints (length limits, NOT NULL on columns the validators do not check) are not modelled.
- The `inventory` table is a map with at most one row per product. Several inventory rows for one product would repeat the product in a join, and the model does not capture that.
- `server/database/connect.js` (pool creation, environment variables) is not part of this model. A connection failure is the store-failure flag.
- The client application (React pages, the auth context, API helpers) is not part of this model.
- Token verification is not modelled: no server route checks a token, so the server side has nothing to verify.
