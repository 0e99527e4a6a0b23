# JWT request filter of the chattingo backend, modelled in Dafny

This project models `JwtValidator`, the Spring request filter in the chattingo
backend that authenticates each HTTP request from the JSON Web Token in its
`Authorization` header. For each request the filter reads the header and
then does one of three things:

- **no header**: it forwards the request and leaves the security context alone;
- **header present, token accepted**: it cuts off the first seven characters,
  has the JWS parser verify the rest under the signing key, and maps the
  claims to an authenticated `UsernamePasswordAuthenticationToken`. The
  principal is the `email` claim and the authorities come from comma-splitting
  the `authorities` claim. The filter stores that token in the security
  context and then forwards the request;
- **header present, something fails**: any failure in those steps becomes a
  `BadCredentialsException` ("Invalid token recieved..."). The request is not
  forwarded.

Files:

- `wrappers.dfy`: `Option` (Java's `null`, or an operation that threw).
- `authority_utils.dfy`: the comma split of the authorities claim, with its
  round trip against `Join` and the proof that only commas are lost.
- `security.dfy`: the authentication value and the `SecurityContext` class
  that holds at most one of them. A ghost counter records how many times it
  was set.
- `servlet.dfy`: the request (its headers) and the `FilterChain` class.
  The chain records every request forwarded to it together with the
  authentication the context held at that moment.
- `jwt_validator.dfy`: module `Config`. It holds the signing key, the
  claims mapping, `Authenticate` and class `JwtValidator`:
  - `Authenticate` is a pure function for what the `try` block computes.
  - `DoFilterInternal` is the imperative filter method, proved against
    `Authenticate`.

The JWS parser of the token library is a parameter of type
`(SigningKey, string) -> Option<Claims>`. Signature checking, structure
checking and expiry checking all sit behind that parameter. The only part of
the library's parsing that the model fixes is its refusal of an empty token.
That refusal is why a header of exactly seven characters is rejected.

The model follows the code as written, including where it is looser than a hardened bearer-token filter:

- The seven cut-off characters are never compared with `"Bearer "`. Any
  seven-character prefix is accepted (`AnyPrefixAccepted`).
- A header that is too short does not get its own malformed-header outcome.
  `substring` throws and the `catch` turns that into the same rejection as
  a bad token.
- A missing claim does not map to an empty or absent value. It becomes the
  string `"null"`, so the principal is `"null"` and the only authority is
  `"null"`.

## Model

| member | source | states |
|---|---|---|
| AuthorityUtils.Tokens | backend/src/main/java/com/chattingo/config/JwtValidator.java:52 | every role name produced is non-empty and comma-free; none is produced exactly when the claim is only commas (or empty) |
| AuthorityUtils.CommaSeparatedStringToAuthorityList | backend/src/main/java/com/chattingo/config/JwtValidator.java:52 | one granted authority per role name of the claim, the k-th authority holding the k-th role name |
| AuthorityUtils.AuthorityList | backend/src/main/java/com/chattingo/config/JwtValidator.java:52 | one `SimpleGrantedAuthority` per role name, the k-th holding the k-th name (the list-building step behind the comma split) |
| AuthorityUtils.TokensOfJoin | backend/src/main/java/com/chattingo/config/JwtValidator.java:52 | splitting a comma-joined list of role names gives back exactly that list, in order |
| AuthorityUtils.TokensAtComma | backend/src/main/java/com/chattingo/config/JwtValidator.java:52 | a comma splits the claim into two parts that are split on their own, so an empty entry is dropped and never merges its neighbours; with the comma-free case this fixes the split completely |
| AuthorityUtils.TokensWithoutComma | backend/src/main/java/com/chattingo/config/JwtValidator.java:52 | a claim without commas is one role name, or none when it is empty |
| AuthorityUtils.TwoRoles | backend/src/main/java/com/chattingo/config/JwtValidator.java:52 | two role names joined by a comma give exactly those two authorities, in order |
| AuthorityUtils.TokensKeepEveryOtherCharacter | backend/src/main/java/com/chattingo/config/JwtValidator.java:52 | the role names, concatenated, are the claim with its commas removed: nothing else is lost or reordered |
| Servlet.Request.GetHeader | backend/src/main/java/com/chattingo/config/JwtValidator.java:40 | the header is absent (null) exactly when the request does not carry it, otherwise its value |
| Config.Substring | backend/src/main/java/com/chattingo/config/JwtValidator.java:45 | `substring(7)` succeeds exactly when the header has at least 7 characters, and then the header is the 7 cut-off characters followed by the token |
| Config.HmacShaKeyFor | backend/src/main/java/com/chattingo/config/JwtValidator.java:32 | no contract of its own: the key is an immutable value holding the secret's bytes; the constructor row states that it is derived once |
| Config.ParseClaimsJws | backend/src/main/java/com/chattingo/config/JwtValidator.java:47 | an empty token is refused without consulting the parser, and any claims returned are the parser's for that token; used by `AuthenticateSucceedsIff` and `ShortHeaderRejected` |
| Config.ValueOf | backend/src/main/java/com/chattingo/config/JwtValidator.java:49-50 | no contract of its own: a present claim gives its value, a missing one the string "null"; stated by `MissingClaimsReadAsNull` and `PublishedAuthentication` |
| Config.ToAuthentication | backend/src/main/java/com/chattingo/config/JwtValidator.java:49-54 | the published authentication never carries credentials and every authority is a non-empty comma-free role name; `PublishedAuthentication` and `IssuedClaimsRoundTrip` state principal and authorities |
| Config.Authenticate | backend/src/main/java/com/chattingo/config/JwtValidator.java:43-59 | an authentication only comes from claims the parser accepted for the header minus its first 7 characters, and is their mapping; `AuthenticateSucceedsIff` gives the converse |
| Config.AuthenticateSucceedsIff | backend/src/main/java/com/chattingo/config/JwtValidator.java:43-47 | the try block yields an authentication if and only if the header is longer than 7 characters and the parser accepts the header minus its first 7 characters |
| Config.ShortHeaderRejected | backend/src/main/java/com/chattingo/config/JwtValidator.java:43-45 | a header of at most 7 characters never yields an authentication, whatever the parser does |
| Config.ParserRejectionRejected | backend/src/main/java/com/chattingo/config/JwtValidator.java:47 | a token the parser refuses (bad signature, malformed, expired) never yields an authentication |
| Config.AnyPrefixAccepted | backend/src/main/java/com/chattingo/config/JwtValidator.java:45-47 | the 7 cut-off characters are not inspected: any prefix of that length hands exactly the rest to the parser |
| Config.PublishedAuthentication | backend/src/main/java/com/chattingo/config/JwtValidator.java:49-54 | on success the authentication has the `email` claim as principal, null credentials, and one authority per role name of the `authorities` claim |
| Config.MissingClaimsReadAsNull | backend/src/main/java/com/chattingo/config/JwtValidator.java:49-52 | a token the parser accepts still authenticates when claims are missing: without `email` the principal is "null", without `authorities` the single authority is "null" |
| Config.IssuedClaimsRoundTrip | backend/src/main/java/com/chattingo/config/JwtValidator.java:45-54 | a verified token whose claims hold an email and comma-joined role names, whatever other claims (`exp`, `iat`, ...) it carries, publishes exactly that email, no credentials and those roles |
| Config.AdminUserAuthorities | backend/src/main/java/com/chattingo/config/JwtValidator.java:50-52 | the claim "ADMIN,USER" gives the authorities ADMIN then USER; the empty claim gives none |
| Config.JwtValidator.constructor | backend/src/main/java/com/chattingo/config/JwtValidator.java:29-33 | the signing key is derived from the secret once, at construction, and is a constant of the filter from then on |
| Security.SecurityContext.SetAuthentication | backend/src/main/java/com/chattingo/config/JwtValidator.java:56 | the context then holds exactly the given authentication; the write is counted |
| Servlet.FilterChain.DoFilter | backend/src/main/java/com/chattingo/config/JwtValidator.java:63 | the chain receives the request together with the authentication the context holds at that moment |
| Config.JwtValidator.DoFilterInternal | backend/src/main/java/com/chattingo/config/JwtValidator.java:37-64 | no header: forwarded once, context untouched. Authentication found: context set exactly once, then forwarded exactly once, carrying it. Otherwise: rejected with "Invalid token recieved...", chain never called, context untouched |

## Left out

- JWS compact-form parsing, HMAC signature checking and expiry checking (line 47): these belong to the token library. They are the abstract `JwsParser` parameter. The clock they consult is inside that parameter.
- `Keys.hmacShaKeyFor` (line 32) is a foreign key derivation. The key is an immutable value that holds the secret. The library's rejection of secrets shorter than 256 bits, and the platform character set used by `getBytes`, are not modelled.
- CommaSeparatedStringToAuthorityList: a plain comma split that drops empty entries. Spring's tokenizer also trims whitespace around each name; that is not modelled.
- Claim values are taken in their string form. How non-string JSON values (numbers, arrays) print under `String.valueOf` is not modelled.
- `SecurityContextHolder` is thread-local, and concurrent requests are isolated from one another (line 56). Neither is modelled: the context is one object passed to the call.
- Servlet plumbing is left out:
  - the response object;
  - case-insensitive header names;
  - the once-per-request guard of `OncePerRequestFilter`;
  - exceptions thrown by the rest of the chain (line 63 is outside the `try`, so they propagate unchanged).
- Java strings count UTF-16 code units and Dafny strings count characters. The difference is not modelled.
- frontend/src/config/api.js only holds a default base URL, with no logic to model.
