# Employee CRUD API: authorization, tokens, audit and stores in Dafny

This project models the security and rule core of the Employee CRUD API, a
Spring Boot service. The core splits into four layers, and each has its own
Dafny module:

- **Role and policy descriptor.** The four roles and the `@RequireRole` descriptor: its roles, its ANY/ALL mode, and its denial message.
- **Tokens.** `JwtUtil` issues and reads bearer tokens. These are JSON Web Tokens (RFC 7519) holding the claims `sub`, `iat`, `exp` and `roles`, signed with HMAC-SHA256 (section 3.2 of RFC 7518).
- **Security aspect.** `SecurityAspect` is the interceptor that runs before guarded methods. It either lets the call proceed or rejects it with 401, 403 or 500. After a change to an employee, it also records one audit entry.
- **Services.** `UserService` and `EmployeeService`, with the `User` entity. Each keeps its records in a repository, modelled as a map from generated id to the stored object. Each object is mutated through its setters.

Modules, one per file:

| file | module | models |
|---|---|---|
| wrappers.dfy | Wrappers | `Option` and `Result` |
| roles.dfy | Roles | `Role`; enum name lookup; ANY/ALL matching |
| policy.dfy | Policy | `RequireRole` |
| text.dfy | Text | decimal numerals, prefixes |
| claims.dfy | JwtClaims | the claims set and its serialisation |
| jwt.dfy | Jwt | `JwtUtil` |
| security.dfy | Security | `SecurityAspect`, `AuditLog` |
| user.dfy | Users | `User` |
| user_service.dfy | UserServices | `UserService` |
| employee_service.dfy | Employees | `EmployeeService` and the employee record |

## How the model is built

**Tokens.** A token is `HS256.` + claims + `.` + signature.
- The signature is the MAC of everything before the dot. The MAC is whatever `hmac` function the `JwtUtil` value carries.
- The library parser checks, in order: the token's shape, the signature, and that `exp` is not before the clock reading.

**The clock.** Every operation that reads the clock takes a parameter `now`, in milliseconds. NumericDate values are whole seconds, so an issued token expires at `ExpiryMillis(now)`. That is the start of the second one hour after issue. `isTokenExpired` compares the expiry with its own `new Date()`, read after the parser's reading. That second reading is a separate parameter, `date`, of `IsTokenExpired`, `ValidateToken` and the interceptor.

**The interceptor.** It is one function, `CheckRoleAccess`, of:
- the optional request, which carries the `Authorization` header;
- the descriptor;
- the parser's clock reading `now` and the validity check's reading `date`.

Its contract is stated in terms of the parsed claims. It gives:
- 401 "Authentication required" without a bearer header;
- 500 when the token does not parse at `now`, or lacks `sub` or `exp`;
- 401 "Invalid or expired token" when the expiry lies before `date`; this needs `now < date`;
- otherwise, exactly the role check's decision: Allow, or 403 with the descriptor's message.

**Services.** A service is a class holding:
- `users` or `employees`: a map from id to objects;
- `nextId`: the identity counter.

Each method states its new state through `Snapshot()`, the map of the stored objects' field values. `Valid()` holds between calls: the snapshot is `Consistent` with the counter. That is, every stored object carries its own key as id, below the counter, and the unique columns hold distinct values: username and email for users, email for employees. The lemmas that keep `Consistent` across an insertion, a change and a removal are stated on map values, apart from the objects.

**What the aspect's code does where its comments suggest otherwise.**

- **An expired token mostly gets 500, not 401.** The library parser already refuses a token that has expired at its clock reading, so `extractUsername` throws. The aspect therefore answers 500 "Authorization check failed" (`ExpiredTokenIsInternalError`, `Jwt.ExpiredTokenRefused`). The 401 "Invalid or expired token" branch is taken only for a token that expires in the short window between the parser's reading and the later `new Date()` of `isTokenExpired` (`IssuedTokenExpiringBetweenReadings`, `Jwt.ExpiringBetweenReadings`). `CheckRoleAccess` states that this 401 needs the second reading to be the later one.
- **No principal does not mean "system".** Without an authenticated principal, the audit recorder looks up the name "system" like any other. The entry's user is therefore "unknown" unless a stored user is called "system".
- **A refused create is still audited.** The pointcut watches the controller's `createEmployee`. The controller catches the service's exception for a taken email and returns 409 normally, so the advice still records a CREATE entry, with the id of the unsaved employee, which is null. `LogTransaction` covers this through its `args` parameter.
- **Expiry is not checked to the millisecond.** `exp` is stored in seconds and compared as a date. A token is therefore accepted up to and including `ExpiryMillis(now)`, which is up to a second less than one hour after issue.

## Model

| member | source | states |
|---|---|---|
| Roles.ExactlyFourRoles | src/main/java/com/example/employeeapi/enums/Role.java:7-10 | there are exactly the four roles ADMIN, HR, MANAGER and EMPLOYEE, all distinct |
| Roles.ToString | src/main/java/com/example/employeeapi/enums/Role.java:22-25 | `toString` is the same string as `getRoleName` |
| Roles.RoleNameInjective | src/main/java/com/example/employeeapi/enums/Role.java:7-10 | distinct roles have distinct names |
| Roles.ValueOf | src/main/java/com/example/employeeapi/security/JwtUtil.java:71-77 | name lookup finds a role exactly when some role has that name, and then the role with that name |
| Roles.ValueOfRoleName | src/main/java/com/example/employeeapi/enums/Role.java:7-20 | looking up a role's name gives back the role |
| Roles.AnyIn | src/main/java/com/example/employeeapi/aspect/SecurityAspect.java:138-139 | true exactly when some wanted role is held |
| Roles.ContainsAll | src/main/java/com/example/employeeapi/aspect/SecurityAspect.java:135 | true exactly when every wanted role is held |
| Policy.Require | src/main/java/com/example/employeeapi/annotation/RequireRole.java:22-33 | a descriptor with only roles given has ANY mode and the message "Access denied: insufficient privileges" |
| Text.IntToString | src/main/java/com/example/employeeapi/service/UserService.java:142 | renders a long in decimal without leading zeros, and reading the digits back gives the number with its sign |
| JwtClaims.DecodeEncode | src/main/java/com/example/employeeapi/security/JwtUtil.java:39-45 | the serialised claims set reads back as the same claims set, whatever follows it |
| Jwt.NewJwtUtil | src/main/java/com/example/employeeapi/security/JwtUtil.java:22-24 | key derivation succeeds exactly for a secret of at least 256 bits, and keeps its bytes |
| Jwt.ParseClaims | src/main/java/com/example/employeeapi/security/JwtUtil.java:101-107 | claims are returned only from a token whose signature is the MAC of its content and whose expiry has not passed |
| Jwt.ParseShape | src/main/java/com/example/employeeapi/security/JwtUtil.java:101-107 | for header, claims and any signature: a wrong signature is refused; a right one gives the claims unless they expired |
| Jwt.ParseSign | src/main/java/com/example/employeeapi/security/JwtUtil.java:101-107 | a signed claims set parses back to itself unless it expired |
| Jwt.TamperedSignatureRejected | src/main/java/com/example/employeeapi/security/JwtUtil.java:101-107 | changing any character of the signature makes the parser refuse the token |
| Jwt.RoleNames | src/main/java/com/example/employeeapi/security/JwtUtil.java:33-35 | the role list names every role of the set, each name looks up to a role of the set, and it is non-empty for a non-empty set |
| Jwt.RolesOf | src/main/java/com/example/employeeapi/security/JwtUtil.java:66-79 | a role is granted exactly when the claim is present and lists its name; unknown names are dropped |
| Jwt.IssuedClaims | src/main/java/com/example/employeeapi/security/JwtUtil.java:31-43 | subject is the username; issue and expiry times are now and now plus an hour, in seconds; the roles claim is omitted exactly when the roles are null or empty; the claim grants exactly the given roles |
| Jwt.ExpiryMillis | src/main/java/com/example/employeeapi/security/JwtUtil.java:43 | an issued token is valid until at most one hour, and more than 59 minutes 59 seconds, after issue |
| Jwt.GenerateToken | src/main/java/com/example/employeeapi/security/JwtUtil.java:30-46 | the issued token parses, at issue time, to exactly the issued claims |
| Jwt.GenerateTokenFor | src/main/java/com/example/employeeapi/security/JwtUtil.java:26-28 | the one-argument overload issues the same token as the empty set, and as no set |
| Jwt.ExtractUsername | src/main/java/com/example/employeeapi/security/JwtUtil.java:53-55 | the `sub` claim of a parsed token; any parse failure propagates |
| Jwt.ExtractExpiration | src/main/java/com/example/employeeapi/security/JwtUtil.java:57-59 | the `exp` claim in milliseconds, never before now |
| Jwt.ExtractRoles | src/main/java/com/example/employeeapi/security/JwtUtil.java:61-80 | exactly the roles named in the claim; empty when the claim is absent or empty |
| Jwt.HasRole | src/main/java/com/example/employeeapi/security/JwtUtil.java:82-85 | membership in the extracted roles |
| Jwt.HasAnyRole | src/main/java/com/example/employeeapi/security/JwtUtil.java:87-90 | some argument is in the extracted roles; never true for no arguments; one argument is `HasRole` |
| Jwt.IsTokenExpired | src/main/java/com/example/employeeapi/security/JwtUtil.java:92-94 | fails without `exp`; otherwise true exactly when the expiry lies before the second reading `date`, which can only happen when `date` is later than the parser's reading |
| Jwt.ValidateToken | src/main/java/com/example/employeeapi/security/JwtUtil.java:48-51 | true exactly when the token parses, its subject is the given name and its expiry is present and not passed at `date`; another subject gives false; parse failures propagate; with `date` not after the parser's reading, a parsed token of that subject validates |
| Jwt.RolesRoundTrip | src/main/java/com/example/employeeapi/security/JwtUtil.java:30-80 | the roles read back from an issued token are exactly the issued roles, until it expires |
| Jwt.IssuedTokenValidates | src/main/java/com/example/employeeapi/security/JwtUtil.java:48-51 | an issued token validates for its own subject, and not for any other name, until it expires |
| Jwt.ExpiredTokenRefused | src/main/java/com/example/employeeapi/security/JwtUtil.java:101-107 | after its expiry an issued token neither parses nor validates |
| Jwt.ExpiringBetweenReadings | src/main/java/com/example/employeeapi/security/JwtUtil.java:48-51 | an issued token that expires after the parser's reading and before `new Date()` is reported expired, and does not validate |
| Security.CheckUserRoles | src/main/java/com/example/employeeapi/aspect/SecurityAspect.java:128-141 | no or empty roles fail; ALL means every required role is held; ANY means some is; an empty requirement passes ALL and fails ANY |
| Security.PolicyExamples | src/main/java/com/example/employeeapi/aspect/SecurityAspect.java:128-141 | ALL of ADMIN and HR needs both; ANY needs one; ADMIN does not imply MANAGER |
| Security.BearerToken | src/main/java/com/example/employeeapi/aspect/SecurityAspect.java:76-82 | a credential exists exactly when there is a request whose header starts with "Bearer ", and it is the rest of the header |
| Security.CheckRoleAccess | src/main/java/com/example/employeeapi/aspect/SecurityAspect.java:61-114 | 401 without a bearer header; 500 when the token cannot be read or lacks subject or expiry; 401 "Invalid or expired token" exactly when the accepted token's expiry lies before the second reading, which must then be the later one; otherwise the role check decides, between Allow and 403 with the descriptor's message |
| Security.CheckClassRoleAccess | src/main/java/com/example/employeeapi/aspect/SecurityAspect.java:119-123 | a type-level descriptor is enforced by the same decision |
| Security.GetRequireRoleAnnotation | src/main/java/com/example/employeeapi/aspect/SecurityAspect.java:146-159 | the method's descriptor when it has one, else its type's |
| Security.BeforeAdvice | src/main/java/com/example/employeeapi/aspect/SecurityAspect.java:61-123 | the type-level descriptor applies only without a method-level one; an unguarded method is allowed |
| Security.Invoke | src/main/java/com/example/employeeapi/aspect/SecurityAspect.java:100-104 | the guarded method runs exactly when the advice allows it; a denial carries its status and reason |
| Security.IssuedTokenDecidedByRoles | src/main/java/com/example/employeeapi/aspect/SecurityAspect.java:82-104 | a valid issued token presented as a bearer credential is decided by the issued roles alone |
| Security.IssuedTokenExpiringBetweenReadings | src/main/java/com/example/employeeapi/aspect/SecurityAspect.java:82-92 | an issued token that expires between the parser's reading and `new Date()` is answered with 401 "Invalid or expired token" |
| Security.ExpiredTokenIsInternalError | src/main/java/com/example/employeeapi/aspect/SecurityAspect.java:108-113 | an expired issued token is answered with 500 "Authorization check failed" |
| Security.ActionFor | src/main/java/com/example/employeeapi/aspect/SecurityAspect.java:166-173 | DELETE exactly for the prefix deleteEmployee; otherwise CREATE exactly for the prefix createEmployee |
| Security.MonitoredActions | src/main/java/com/example/employeeapi/aspect/SecurityAspect.java:54 | each method the pointcut monitors records the action its name prefix announces |
| Security.Actor | src/main/java/com/example/employeeapi/aspect/SecurityAspect.java:184-192 | the recorded user is a stored username or "unknown"; the authenticated principal when stored; "system" is looked up like any name |
| Security.AuditLogRepository.Save | src/main/java/com/example/employeeapi/aspect/SecurityAspect.java:201 | appends exactly the entry |
| Security.LogTransaction | src/main/java/com/example/employeeapi/aspect/SecurityAspect.java:161-208 | appends at most one entry; none without arguments, for a null first argument, or when a store fails; otherwise the entry of action, class name, id, actor and time |
| Users.User.Default | src/main/java/com/example/employeeapi/entity/User.java:54-56 | a default user is active, has no id and no roles, and was created now |
| Users.User.constructor | src/main/java/com/example/employeeapi/entity/User.java:59-67 | the five arguments are stored unchanged; the user is active and created now |
| Users.User.OnUpdate | src/main/java/com/example/employeeapi/entity/User.java:69-72 | only the modification time changes |
| Users.User.SetId | src/main/java/com/example/employeeapi/entity/User.java:79-81 | only the id changes |
| Users.User.SetUsername | src/main/java/com/example/employeeapi/entity/User.java:87-89 | only the username changes |
| Users.User.SetPassword | src/main/java/com/example/employeeapi/entity/User.java:95-97 | only the password changes |
| Users.User.SetEmail | src/main/java/com/example/employeeapi/entity/User.java:103-105 | only the email changes |
| Users.User.SetFullName | src/main/java/com/example/employeeapi/entity/User.java:111-113 | only the full name changes |
| Users.User.SetRoles | src/main/java/com/example/employeeapi/entity/User.java:119-121 | only the roles change |
| Users.User.SetActive | src/main/java/com/example/employeeapi/entity/User.java:127-129 | only the active flag changes |
| Users.User.SetCreatedAt | src/main/java/com/example/employeeapi/entity/User.java:135-137 | only the creation time changes |
| Users.User.SetUpdatedAt | src/main/java/com/example/employeeapi/entity/User.java:143-145 | only the modification time changes |
| Users.User.HasRole | src/main/java/com/example/employeeapi/entity/User.java:148-150 | false without a role set, membership otherwise |
| Users.User.HasAnyRole | src/main/java/com/example/employeeapi/entity/User.java:152-160 | true exactly when the user has roles and some argument is among them; false for no arguments; one argument is `HasRole` |
| UserServices.ChangedAndTaken | src/main/java/com/example/employeeapi/service/UserService.java:122-131 | the update's check rejects exactly a username or email held by another user; keeping one's own is allowed |
| UserServices.WithDetails | src/main/java/com/example/employeeapi/service/UserService.java:133-137 | username, email, full name, roles and active come from the details; id, password and times are kept |
| UserServices.InsertKeepsUnique | src/main/java/com/example/employeeapi/service/UserService.java:28-41 | adding a user with a free username and email keeps both unique |
| UserServices.ReplaceKeepsUnique | src/main/java/com/example/employeeapi/service/UserService.java:118-143 | overwriting a user with values no other user holds keeps both unique |
| UserServices.RemoveKeepsUnique | src/main/java/com/example/employeeapi/service/UserService.java:189-196 | deleting a user keeps usernames and emails unique |
| UserServices.InsertKeepsConsistent | src/main/java/com/example/employeeapi/service/UserService.java:28-41 | the counter's id is free, and storing a user with free username and email under it keeps the store consistent once the counter moves on |
| UserServices.ReplaceKeepsConsistent | src/main/java/com/example/employeeapi/service/UserService.java:118-184 | changing a user's fields other than its id, to values no other user holds, keeps the store consistent |
| UserServices.RemoveKeepsConsistent | src/main/java/com/example/employeeapi/service/UserService.java:189-196 | deleting a user keeps the store consistent |
| UserServices.CountActiveBound | src/main/java/com/example/employeeapi/service/UserService.java:218-220 | there are never more active users than users |
| UserServices.CountActiveReplace | src/main/java/com/example/employeeapi/service/UserService.java:161-184 | changing one user changes the active count only by that user's flag |
| UserServices.CountActiveRemove | src/main/java/com/example/employeeapi/service/UserService.java:189-196 | deleting a user lowers the active count by one exactly when it was active |
| UserServices.UserService.CreateUser | src/main/java/com/example/employeeapi/service/UserService.java:28-41 | a taken username is refused first, a taken email second, both changing nothing; otherwise the user is stored under a new id; uniqueness is kept |
| UserServices.UserService.Insert | src/main/java/com/example/employeeapi/service/UserService.java:40 | saving a new user gives it the counter's id and stores it there, every other user untouched; the counter moves on and consistency is kept |
| UserServices.UserService.AuthenticateUser | src/main/java/com/example/employeeapi/service/UserService.java:47-65 | returns a stored active user of that name whose password matches; empty exactly when there is none |
| UserServices.UserService.UpdateUser | src/main/java/com/example/employeeapi/service/UserService.java:118-143 | an unknown id, or a username or email of another user, is refused and changes nothing; otherwise only the five copied fields of that user change; uniqueness is kept |
| UserServices.UserService.CopyDetails | src/main/java/com/example/employeeapi/service/UserService.java:133-137 | the five setter calls change only that user, as `WithDetails` says |
| UserServices.UserService.UpdateUserRoles | src/main/java/com/example/employeeapi/service/UserService.java:148-156 | an unknown id is refused; otherwise only that user's roles change |
| UserServices.UserService.SetActiveFlag | src/main/java/com/example/employeeapi/service/UserService.java:161-184 | true exactly for a stored id, and then only that user's flag changes; otherwise nothing changes |
| UserServices.UserService.DeactivateUser | src/main/java/com/example/employeeapi/service/UserService.java:161-170 | true exactly for a stored id; only its flag turns false; the active count drops by one if it was active |
| UserServices.UserService.ActivateUser | src/main/java/com/example/employeeapi/service/UserService.java:175-184 | true exactly for a stored id; only its flag turns true; the active count rises by one if it was inactive |
| UserServices.UserService.DeleteUser | src/main/java/com/example/employeeapi/service/UserService.java:189-196 | true exactly when the id was stored; afterwards it is absent and every other user is untouched |
| UserServices.UserService.Remove | src/main/java/com/example/employeeapi/service/UserService.java:191 | `deleteById` of a stored id removes that user alone and keeps consistency |
| UserServices.UserService.ActiveUserCount | src/main/java/com/example/employeeapi/service/UserService.java:218-220 | the number of stored active users, at most the number of users |
| Employees.ChangedAndTaken | src/main/java/com/example/employeeapi/service/EmployeeService.java:63-66 | the update's check rejects exactly an email held by another employee |
| Employees.WithDetails | src/main/java/com/example/employeeapi/service/EmployeeService.java:68-71 | name, email, department and salary come from the details; the id is kept |
| Employees.InsertKeepsUnique | src/main/java/com/example/employeeapi/service/EmployeeService.java:20-26 | adding an employee with a free email keeps emails unique |
| Employees.ReplaceKeepsUnique | src/main/java/com/example/employeeapi/service/EmployeeService.java:59-75 | overwriting an employee with an email no other employee holds keeps emails unique |
| Employees.RemoveKeepsUnique | src/main/java/com/example/employeeapi/service/EmployeeService.java:78-84 | deleting an employee keeps emails unique |
| Employees.InsertKeepsConsistent | src/main/java/com/example/employeeapi/service/EmployeeService.java:20-26 | the counter's id is free, and storing an employee with a free email under it keeps the staff consistent once the counter moves on |
| Employees.ReplaceKeepsConsistent | src/main/java/com/example/employeeapi/service/EmployeeService.java:59-75 | changing an employee's fields other than its id, to an email no other employee holds, keeps the staff consistent |
| Employees.RemoveKeepsConsistent | src/main/java/com/example/employeeapi/service/EmployeeService.java:78-84 | deleting an employee keeps the staff consistent |
| Employees.EmployeeService.EmployeeExists | src/main/java/com/example/employeeapi/service/EmployeeService.java:88-90 | true exactly for a stored id |
| Employees.EmployeeService.TotalEmployeeCount | src/main/java/com/example/employeeapi/service/EmployeeService.java:94-96 | the number of stored employees |
| Employees.EmployeeService.CreateEmployee | src/main/java/com/example/employeeapi/service/EmployeeService.java:20-26 | a taken email is refused and changes nothing; otherwise the employee is stored under a new id, which then exists, and the count rises by one |
| Employees.EmployeeService.Insert | src/main/java/com/example/employeeapi/service/EmployeeService.java:25 | saving a new employee gives it the counter's id and stores it there, every other employee untouched; the counter moves on and consistency is kept |
| Employees.EmployeeService.UpdateEmployee | src/main/java/com/example/employeeapi/service/EmployeeService.java:59-75 | an unknown id, or the email of another employee, is refused and changes nothing; otherwise only the four copied fields of that employee change |
| Employees.EmployeeService.CopyDetails | src/main/java/com/example/employeeapi/service/EmployeeService.java:68-72 | the four setter calls change only that employee, as `WithDetails` says |
| Employees.EmployeeService.DeleteEmployee | src/main/java/com/example/employeeapi/service/EmployeeService.java:78-84 | true exactly when the id was stored; afterwards it is absent, the others untouched and the count one lower |

## Left out

**Cryptography and encoding**
- HMAC-SHA256 and key derivation are foreign library code. `JwtUtil` carries the key bytes and a MAC function as a value. The only property of the key that is checked is its length of at least 256 bits.
- The JSON claims object and its base64url serialisation are replaced by a self-delimiting text encoding of the same four claims. The header is the fixed text `HS256.`.
- The many exception types of the parser are collapsed to malformed, bad signature and expired. A dereferenced absent claim is one more fault.

**Clock**
- Token issuance reads the clock once, as `now`, though the source reads it separately for `iat` and `exp`.
- The interceptor parses the token four times (`extractUsername`, `extractRoles`, and both again inside `validateToken`). The model gives all four parses one reading, `now`. A token that expires between two of those parses makes the later parse throw, which the source answers with 500; the model does not show that case. The separate `new Date()` of `isTokenExpired` is modelled, as `date`.

**Framework**
- Spring AOP weaving, pointcut matching and reflection are not modelled. They are given as values: the method name, the arguments, and what `getId()` yields.
- The request context, the security context and the stored usernames are inputs.
- Store failures during audit are one flag, `storeUp`.
- Logging through slf4j has no behaviour and is left out.

**Persistence (JPA)**
- Repositories are maps, and ids come from a counter.
- Passing an already stored object to `save` (a merge) is not modelled. `CreateUser` and `CreateEmployee` require an object without an id.
- Transactions and rollback are not modelled. Bean validation constraints (`@NotBlank`, `@Email`, `@NotNull`) are not modelled.
- The `@PreUpdate` callback is modelled as `User.OnUpdate`. The services do not trigger it, because the persistence layer calls it at flush time. So the service contracts keep `updatedAt` unchanged.
- The query-only service methods only delegate to generated repository queries, and are left out:
  - in UserService: `getAllUsers`, `getActiveUsers`, `getUserById`, `getUserByUsername`, `getUserByEmail`, `getUsersByRole`, `userExists`, `getTotalUserCount`, `searchUsersByUsername`;
  - in EmployeeService: `getAllEmployees`, `getEmployeeById`, `getEmployeeByEmail`, `getEmployeesByDepartment`, `searchEmployeesByName`.

**Not part of this model**
- The controllers, the two data loaders and the security configuration.
- The employee entity's source is not part of this model. Its fields (id, name, email, department, salary) are the ones the service reads and sets. The decimal salary is a whole number.
- The audit entry's own generated id. Its timestamp is a parameter.

**Value representation**
- A `null` string of the default `User` constructor is the empty string.
- A `null` role set is `None`.
- A `null` varargs array for `hasAnyRole` is not modelled.
- Java `Long` ids are unbounded integers, so overflow of the identity counter is not modelled.
