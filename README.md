# Tresoly-API in Dafny

This project models the request handlers of Tresoly-API, an Express/MongoDB back end for a password vault. Each modelled handler is a deterministic state transition that ends in a named reply: a status code and a message. The model covers:

- **Accounts**: signup, with or without an OTP-guarded pending cache; signup verification; login; the password-reset cycle (request, resend, verify, reset); two-factor toggle and login; change password.
- **Vaults**: create, list, update, delete.
- **Profiles and preferences**: lookup, profile and field updates, the three notification toggles.
- **Administration**: promotion by emailed token, set-password links, activate/deactivate, user counts, complaint replies, and the sign-up chart.
- **Request gating**: where a token is read from, how the middleware classifies a failed check, the JWT claims and lifetimes, and the upload filters.

How the model represents the system:

- Every collection (users, vaults, complaints) is a sequence of records. `findOne` is the first match, and a `Key` names the filter.
- The store that a group of handlers mutates is a class: `AuthStore`, `UserStore`, `VaultStore`, `SecurityStore`, `AdminStore`.
- Each handler is a method of that class. Its `ensures` ties the reply to a pure decision function, such as `ResetReply` or `UpdateReply`, whose own contract states the outcomes as if-and-only-ifs. The same `ensures` gives the whole new state on success and "no change" on every failure.
- Lemmas relate several steps: single-use tokens, involutions, round trips, invariants kept.

The TypeScript sources (`src/`) and their compiled copies (`dist/`) are both modelled.

- Where they behave identically, one member models both.
- Where they differ, separate members model each copy:
  - the auth signup (immediate creation against an OTP-guarded cache);
  - login (two tokens against one token with a redacted document);
  - the user schema: the compiled one has no `role` or `account_status`. `AdminStore.declaresRole` and `AuthStore.compiled` say which schema is in force.

Time is an explicit `now` in milliseconds. OTPs, promotion tokens and ticket ids are parameters. bcrypt is an injective stand-in: `Hash(p)` is `"$2b$"` followed by `p`, and `Compare(p, h)` holds exactly when `h == Hash(p)`. JWT signing is a record of the claims, the secret, and the issue and expiry seconds. Ids are naturals; a route id string is read as a decimal numeral, and any other string is one Mongoose cannot cast.

Where the code departs from what its names, messages or comments suggest, the model follows the code:

- The TypeScript `userSignup` creates the user at once, with `is_verified` false. It never fills the signup cache, so any `verifySignupOtp` request that carries both an email and a code gets 404 (`AuthController.TsVerifyAlwaysMisses`).
- In the compiled copy the cache TTL (60 s) equals the OTP lifetime. An expired code is therefore answered 404 "OTP expired or invalid request", and "OTP has expired" only within the millisecond between the handlers' separate clock reads (`AuthController.ExpiredSignupOtpIsGone`).
- `jwt.verify` errors are collapsed by `verifyToken` in src/utils/jwt.ts into the single error "Invalid token". No caller there can tell an expired token from a forged one.
- The password-reset guard is the shared `is_verified` flag alone (see Findings).
- The three notification toggles negate paths that neither user schema declares. `save()` drops them, so the collection never changes, and every toggle reports "enabled" (`SecurityController.ToggleReply`).

## Model

| member | source | states |
|---|---|---|
| Common.Hash | src/controllers/auth.controller.ts:35 | the stored form of a password is never empty and never the password itself |
| Common.HashInjective | src/controllers/auth.controller.ts:35 | different passwords give different hashes |
| Common.CompareExactly | src/controllers/auth.controller.ts:148 | a stored hash accepts exactly the password it was made from |
| Common.Decimal | src/controllers/admin.controller.ts:378 | `toString()` of a natural is a non-empty string of digits |
| Common.ParseId | src/controllers/user.controller.ts:13 | an id string is castable only if it is a non-empty digit string |
| Common.ParseDecimal | src/controllers/admin.controller.ts:378 | reading back the numeral of an id gives the id |
| UsersModel.NewUser | src/models/users.model.ts:30-100 | schema defaults: all flags false, password "", otp null with expiry now + 10 min, role "user", status "active", language English, currency US |
| UsersModel.NewUserDist | dist/models/users.model.js:38-110 | the compiled schema's defaults: the same, but no role and no account status |
| UsersModel.Find | src/models/users.model.ts:32-36 | `findOne` returns the first document that matches, or none when none matches |
| UsersModel.InsertFresh | src/models/users.model.ts:32-36 | inserting a document with a new email keeps emails unique, and the new document is then found by its email |
| UsersModel.FindAppend | src/models/users.model.ts:32-36 | appending a document leaves every earlier match in place and finds the new one when nothing earlier matched |
| UsersModel.UpdateKeepsUnique | src/models/users.model.ts:32-36 | rewriting a document without changing its email keeps emails unique |
| UsersModel.UpdateKeepsStore | src/models/users.model.ts:32-36 | rewriting a document without changing its email or id keeps both uniqueness invariants |
| UsersModel.RemoveKeepsUnique | src/controllers/user.controller.ts:67 | deleting a document keeps emails unique |
| UsersModel.WithoutPassword | src/controllers/user.controller.ts:32 | `select("-password")` and the compiled login payload remove the hash and nothing else |
| VaultsModel.NewVault | src/models/vaults.model.ts:15-58 | a new vault belongs to its owner, is not liked, has no icon, has `[]` for tags not given, and is saveable when the required fields and category are valid |
| VaultsModel.FindVault | src/controllers/vault.controller.ts:150 | `findById` finds the vault with that id, or reports there is none |
| VaultsModel.OwnedBy | src/controllers/vault.controller.ts:112 | the listing holds exactly the vaults whose `user_id` is the caller |
| VaultsModel.OwnedByAppend | src/controllers/vault.controller.ts:112 | a new vault appears in its owner's listing and in no other |
| Headers.Split | src/middlewares/authenticate.ts:13 | `split(" ")` yields separator-free pieces that join back to the input |
| Headers.SplitJoin | src/middlewares/authenticate.ts:13 | splitting what was joined gives the pieces back |
| Headers.SplitPiece | src/middlewares/authenticate.ts:13 | a string without a space splits into itself |
| Headers.SplitPrefix | src/middlewares/authenticate.ts:13 | a leading word and a space become the first piece |
| Headers.TokenFrom | src/middlewares/authenticate.ts:13 | the `accessToken` cookie wins; otherwise the token is the header's second word |
| Headers.BearerHeader | src/utils/jwt.ts:33 | a `Bearer <token>` header yields the token |
| Headers.NoSpaceNoToken | src/utils/jwt.ts:33 | a header with no space yields no token |
| Jwt.GenerateAccessToken | src/utils/jwt.ts:5-13 | claims are exactly `{id, email}` of the user, signed with the access secret, valid for one day |
| Jwt.GenerateRefreshToken | src/utils/jwt.ts:14-22 | the same claims, signed with the refresh secret, valid for seven days |
| Jwt.Verify | src/utils/jwt.ts:24-30 | a token verifies exactly when its secret matches and it has not expired; expiry is reported apart from a bad signature |
| Jwt.VerifyToken | src/utils/jwt.ts:24-30 | every failure becomes the one error "Invalid token" |
| Jwt.VerifyAccessToken | src/utils/jwt.ts:32-44 | 401 "No token provided" without a token, 401 "Invalid token" when it fails, otherwise proceed |
| Jwt.AccessTokenLifetime | dist/utils/jwt.js:8-12 | an access token verifies with the user's claims exactly until one day after issue, and is expired afterwards |
| Jwt.RefreshTokenIsNotAccess | dist/utils/jwt.js:14-18 | a refresh token is refused where the access secret is expected, when the secrets differ |
| Jwt.RefreshOutlivesAccess | src/utils/jwt.ts:5-22 | a refresh token issued together with an access token is valid whenever the access token is |
| Authenticate.Occurs | src/middlewares/authenticate.ts:26 | `url.includes(p)` holds exactly when `p` occurs at some position |
| Authenticate.VerifyToken | src/middlewares/authenticate.ts:8-44 | 403 without a token; proceed with the decoded claims when valid; 401 "Refresh token expired" or "Access token expired" for an expired token, depending on the URL; 401 "Refresh token expired" for any other failure |
| Authenticate.GateStatuses | dist/middlewares/authenticate.js:10-40 | a refused request gets 401 or 403, and 403 exactly when there is no token |
| Authenticate.CookieFirst | dist/middlewares/authenticate.js:9 | with a cookie set, the header never changes the outcome |
| Authenticate.FreshAccessTokenPasses | src/middlewares/authenticate.ts:13-23 | a freshly issued access token sent as a bearer header passes with that user's claims |
| Session.Identify | src/controllers/vault.controller.ts:9-23 | no token, a token that fails `jwt.verify`, or the caller id carried by a valid token |
| Session.Admit | src/controllers/user.controller.ts:52-60 | a missing token gets the handler's own reply, a failed verification gets its `catch` reply, a valid token admits its id |
| Multer.FileFilter | src/config/multer.ts:14-21 | accepts exactly JPEG, PNG and PDF, and rejects with the handler's message |
| Multer.ImageOnlyFilter | src/config/multer.ts:22-32 | accepts exactly JPEG and PNG |
| Multer.ImageOnlyNarrower | dist/config/multer.js:19-39 | whatever the image filter accepts the general filter accepts; PDF is the only difference |
| Multer.LastIndexOf | src/config/multer.ts:9 | the last position of a character, or none |
| Multer.TrimSlashes | src/config/multer.ts:9 | trailing slashes are removed and nothing else |
| Multer.Basename | src/config/multer.ts:9 | the last path segment contains no slash |
| Multer.Extname | src/config/multer.ts:9 | `path.extname` is empty or a dot followed by neither dot nor slash |
| Multer.SegmentExtension | src/config/multer.ts:9 | the extension of one segment has the same shape |
| Multer.FilenameKeepsExtension | src/config/multer.ts:8-12 | the stored name (timestamp plus extension) has the original's extension |
| Multer.DigitsThenExtension | src/config/multer.ts:10 | the extension of digits followed by an extension is that extension |
| Multer.DigitsHaveNoDot | src/config/multer.ts:10 | a timestamp has no dot |
| Multer.LastDotIsExtension | src/config/multer.ts:10 | the last dot of the stored name starts the extension |
| Multer.StoredPath | src/config/multer.ts:4-13 | a file stored under "uploads/" has the generated name as its basename and keeps the original extension |
| Multer.JoinedBasename | src/config/multer.ts:6 | the basename of a directory joined with a plain name is that name |
| Multer.NoSlashBasename | src/config/multer.ts:9 | a name without a slash is its own basename |
| SecurityController.Not | src/controllers/security.controller.ts:20 | JavaScript's `!` is true exactly for `undefined` and `false` |
| SecurityController.Load | src/controllers/security.controller.ts:13 | a document loaded by `findById` holds the stored record and nothing at undeclared paths |
| SecurityController.Read | src/controllers/security.controller.ts:20 | reading a flag gives the assigned value, or `undefined` when none was assigned |
| SecurityController.Toggled | src/controllers/security.controller.ts:20 | the flag becomes the negation of what was read; the stored record and the other flags are untouched |
| SecurityController.Lookup | src/controllers/security.controller.ts:7-19 | a missing userId is an error; a user is found exactly when the id parses and matches |
| SecurityController.ToggleReply | src/controllers/security.controller.ts:4-34 | 400 for a missing id, 500 for an uncastable id, 400 "User not found"; 200 exactly when the user is found, always with "enabled" |
| SecurityController.SecurityStore.Toggle | src/controllers/security.controller.ts:4-34 | the reply is `ToggleReply` of the store; `success` is false only on the 400 replies; saving leaves the collection as it was |
| SecurityController.SecurityStore.ToggleSecurityAlert | src/controllers/security.controller.ts:4-34 | the toggle of `security_alert_notification`: its reply, and the collection unchanged |
| SecurityController.SecurityStore.ToggleRegularAlerts | src/controllers/security.controller.ts:36-66 | the toggle of `regular_updates_notification`: its reply, and the collection unchanged |
| SecurityController.SecurityStore.TogglePromotionAlerts | src/controllers/security.controller.ts:68-98 | the toggle of `promotion_notification`: its reply, and the collection unchanged |
| SecurityController.ToggleNeverAlternates | dist/controllers/security.controller.js:33-38 | a second negation on one document would give false, but the saved store equals the old one, so a repeated request gets the same "enabled" reply |
| VaultController.Gate | src/controllers/vault.controller.ts:9-31 | 401 without a token, 500 for a bad one, 401 "User not found" for an unknown caller, otherwise the caller's id |
| VaultController.CreateReply | src/controllers/vault.controller.ts:42-55 | 201 exactly when the caller is admitted and the category is browser, mobile or other with site, username and password present |
| VaultController.Locate | src/controllers/vault.controller.ts:150-156 | an uncastable id, a missing vault, or the vault's position |
| VaultController.UpdateReply | src/controllers/vault.controller.ts:155-168 | 404 before 403; 200 exactly for the owner of an existing vault whose merged category is valid |
| VaultController.DeleteReply | src/controllers/vault.controller.ts:237-251 | 404 before 403; 200 exactly for the owner of an existing vault |
| VaultController.VaultStore.CreateVault | src/controllers/vault.controller.ts:57-67 | on 201 the new vault is owned by the caller and stores the hash; otherwise nothing changes |
| VaultController.VaultStore.GetUserVaults | src/controllers/vault.controller.ts:86-126 | the caller's own vaults, exactly |
| VaultController.VaultStore.UpdateVault | src/controllers/vault.controller.ts:179-190 | on 200 the vault becomes the merge of the request; otherwise nothing changes |
| VaultController.VaultStore.DeleteVault | src/controllers/vault.controller.ts:237-251 | on 200 exactly that vault is removed; otherwise nothing changes |
| VaultController.VaultStore.GetAllVaults | src/controllers/vault.controller.ts:269-276 | 404 exactly when the store is empty, else every vault |
| VaultController.Merge | src/controllers/vault.controller.ts:179-190 | only the six request fields can change, and a supplied password is stored as a hash that accepts it |
| VaultController.MergeSaveable | src/models/vaults.model.ts:22-26 | a merge with a valid category keeps the vault saveable |
| VaultController.MergeFields | src/controllers/vault.controller.ts:184-190 | each field is taken from the request exactly when that value is truthy; id, owner, icon and like flag never change |
| VaultController.MergePassword | dist/controllers/vault.controller.js:148-158 | the hash is kept when no password is sent and otherwise accepts exactly the new password |
| VaultController.CreateStoresHash | dist/controllers/vault.controller.js:52-62 | a created vault never stores the plaintext and its hash accepts exactly the submitted password |
| VaultController.MergeIdempotent | src/controllers/vault.controller.ts:184-190 | repeating an update changes nothing more, and an empty update changes nothing |
| VaultController.ReplaceKeepsStore | src/models/vaults.model.ts:17-38 | replacing a vault by a saveable one with the same id keeps the store valid |
| VaultController.RemoveKeepsStore | src/controllers/vault.controller.ts:248 | removing a vault keeps the store valid |
| VaultController.NonOwnerCannotTouch | dist/controllers/vault.controller.js:134-146 | neither update nor delete succeeds for anyone but the owner |
| UserController.FindUser | src/controllers/user.controller.ts:10-18 | the id wins when given (an uncastable one is an error); otherwise the email; otherwise nothing |
| UserController.IdTakesPrecedence | dist/controllers/user.controller.js:21-30 | with an id given, the email makes no difference |
| UserController.Listing | src/controllers/user.controller.ts:33-38 | every user, in order, with the password removed |
| UserController.BuildPatch | src/controllers/user.controller.ts:165-171 | language only when truthy, each flag only when it is a boolean; empty exactly when nothing qualifies |
| UserController.PatchWritesItsKeys | src/controllers/user.controller.ts:165-177 | a false flag is applied, an absent one is not, and no other field changes |
| UserController.ProfileWritesOnlySupplied | src/controllers/user.controller.ts:115-122 | email, name and phone change only to truthy values, photo only from an upload, nothing else changes |
| UserController.ChangePasswordReply | src/controllers/user.controller.ts:202-277 | missing fields 400 first; then token, secret, user, empty stored password, wrong old password; 200 exactly when all pass |
| UserController.ChangedPasswordAccepted | src/controllers/user.controller.ts:259-263 | after the change the new password is accepted and a different old one is not |
| UserController.PhotoOf | src/controllers/user.controller.ts:120-122 | a photo path exactly when a file was uploaded, under "uploads/", keeping its extension |
| UserController.UpdateUserReply | src/controllers/user.controller.ts:90-138 | a refused upload answers 500 with the filter's message; then token, caller and email-conflict checks; 200 exactly when all pass |
| UserController.ProfileKeepsUnique | src/models/users.model.ts:32-36 | an update whose email is unchanged or unused elsewhere keeps emails unique |
| UserController.UserStore.GetUsers | src/controllers/user.controller.ts:20-47 | the looked-up user or 404; without a query every user without passwords, 404 when there are none |
| UserController.UserStore.DeleteAccount | src/controllers/user.controller.ts:49-88 | token checks, 404 for an unknown caller, otherwise exactly the caller's document is removed |
| UserController.UserStore.UpdateUser | src/controllers/user.controller.ts:90-138 | on 200 the caller's document becomes the merged profile; otherwise nothing changes |
| UserController.UserStore.UpdateSpecificFields | src/controllers/user.controller.ts:140-200 | 400 with no change for an empty patch; on 200 the patch is applied to the caller |
| UserController.UserStore.ChangePassword | dist/controllers/user.controller.js:193-259 | on 200 the stored hash becomes the hash of the new password; every failure leaves the user unchanged |
| Credentials.Cached | src/controllers/auth.controller.ts:78 | a pending entry is read back until its TTL runs out |
| Credentials.VerifySignupReply | src/controllers/auth.controller.ts:71-117 | missing fields 400, no entry 404, wrong code 400 before expiry 400 (strict `now > expiry`), duplicate email 500, otherwise 200 |
| Credentials.FromPending | src/controllers/auth.controller.ts:103-110 | the new user carries the cached email, name and hash, with `is_verified` true |
| Credentials.LoginReply | src/controllers/auth.controller.ts:134-153 | 400 for missing fields, 404 for an unknown email, 401 for a wrong password, 200 exactly when the hash accepts the password |
| Credentials.RequestOtpReply | src/controllers/auth.controller.ts:195-221 | 400 without an email, 404 for an unknown one, otherwise 200 |
| Credentials.WithResetOtp | src/controllers/auth.controller.ts:211-212 | the code is stored with an expiry 90 s ahead; nothing else changes |
| Credentials.ResendReply | src/controllers/auth.controller.ts:230-263 | refused while `now < otp_expiry`; 200 exactly for a known email whose code has run out |
| Credentials.Resent | src/controllers/auth.controller.ts:250-253 | new code, 90 s expiry, `is_verified` false; nothing else changes |
| Credentials.VerifyResetReply | src/controllers/auth.controller.ts:272-301 | the code is checked before the strict expiry; 200 exactly for a matching code with `now <= otp_expiry` |
| Credentials.ResetReply | src/controllers/auth.controller.ts:310-341 | 200 exactly when the user exists and `is_verified` holds |
| Credentials.AfterReset | src/controllers/auth.controller.ts:330-335 | the new hash, with otp, expiry and `is_verified` cleared together |
| Credentials.ResetIsSingleUse | dist/controllers/auth.controller.js:309-319 | a second reset without a new verification is refused |
| Credentials.FindAfterUpdate | src/models/users.model.ts:32-36 | rewriting a document without changing its email leaves email lookups where they were |
| Credentials.ResendAndVerifyWindows | src/controllers/auth.controller.ts:245-291 | for 90 s after a code is requested or resent, resend answers non-200 and verifying that code answers 200; at exactly 90 s both answer 200; later, verification answers "OTP has expired" |
| Credentials.ResendWithdrawsVerification | dist/controllers/auth.controller.js:231-240 | a resend after a verification closes the reset again |
| Credentials.Step | dist/controllers/auth.controller.js:183-334 | corrected reset cycle: a request stores its code and withdraws verification; only an accepted code grants it; a reset spends it and stores the new hash |
| Credentials.CorrectedResetNeedsVerifiedCode | dist/controllers/auth.controller.js:309-319 | corrected reset cycle: after any sequence of requests, reset is open only if some request presented the code stored at that moment, within its expiry |
| Credentials.CorrectedCycleAfterSignup | dist/controllers/auth.controller.js:90-97 | corrected reset cycle: a fresh signup-verified account is open to the as-written guard but not the corrected one, nor after a code is requested; once the code is verified within 90 s, reset stores the new password |
| AuthController.SignupReply | src/controllers/auth.controller.ts:18-32 | 400 if any of email, password, name, phone is missing; 409 exactly for an existing email; else 201 |
| AuthController.Registered | src/controllers/auth.controller.ts:38-46 | the saved user is unverified and its hash accepts the password |
| AuthController.SignupCachedReply | dist/controllers/auth.controller.js:27-39 | 400 without email or password, 409 for an existing email, else 201 |
| AuthController.Signup | dist/controllers/auth.controller.js:40-52 | the pending entry holds the hash, the code, expiry now + 60 s, and name defaulting to "Tresoly User" |
| AuthController.ToggleTwoFactorReply | dist/controllers/auth.controller.js:363-402 | 401 without a token, 500 for a bad one, 401 for an unknown user, else 200 naming the new state |
| AuthController.TwoFactorLoginReply | dist/controllers/auth.controller.js:404-431 | 200 exactly for a matching code that has not strictly expired |
| AuthController.TwoFactorDone | dist/controllers/auth.controller.js:432-434 | the code and its expiry are cleared and the login time is set; nothing else changes |
| AuthController.ChangePasswordReply | dist/controllers/auth.controller.js:497-535 | 400 for missing fields first, then token checks, 404, 401 for a wrong old password; 200 exactly when all pass |
| AuthController.AuthStore.Blank | dist/models/users.model.js:38-110 | the blank document of the schema in force |
| AuthController.AuthStore.UserSignup | src/controllers/auth.controller.ts:15-66 | on 201 exactly one new unverified user is appended; otherwise nothing changes |
| AuthController.AuthStore.UserSignupCached | dist/controllers/auth.controller.js:25-66 | on 201 only the pending cache changes; no user is created |
| AuthController.AuthStore.VerifySignupOtp | dist/controllers/auth.controller.js:68-115 | on 200 the verified user is appended and the entry removed; every failure leaves users and cache unchanged |
| AuthController.AuthStore.Login | src/controllers/auth.controller.ts:132-193 | on 200 the payload is `{id, email}`, both tokens are issued and `last_login` is set; failures issue nothing and change nothing |
| AuthController.AuthStore.LoginCompiled | dist/controllers/auth.controller.js:117-181 | on 200 the redacted document and one access token are returned and `last_login` is set; failures change nothing |
| AuthController.AuthStore.RequestPasswordResetOtp | src/controllers/auth.controller.ts:195-228 | on 200 the user holds the new code for 90 s; otherwise nothing changes |
| AuthController.AuthStore.ResendPasswordResetOtp | src/controllers/auth.controller.ts:230-270 | on 200 a new code, a new expiry and `is_verified` false; otherwise nothing changes |
| AuthController.AuthStore.VerifyPasswordResetOtp | src/controllers/auth.controller.ts:272-308 | on 200 only `is_verified` becomes true and the code stays; otherwise nothing changes |
| AuthController.AuthStore.ResetPassword | src/controllers/auth.controller.ts:310-348 | on 200 the hash is replaced and the OTP state cleared; otherwise nothing changes |
| AuthController.AuthStore.ToggleTwoFactorAuth | dist/controllers/auth.controller.js:363-402 | on 200 only `is_two_factor` is negated |
| AuthController.AuthStore.VerifyTwoFactorLogin | dist/controllers/auth.controller.js:404-460 | on 200 the code is spent, the login time set, and the token issued for the updated document; otherwise nothing changes |
| AuthController.AuthStore.ChangePassword | dist/controllers/auth.controller.js:497-546 | on 200 the hash becomes that of the new password; otherwise nothing changes |
| AuthController.TsVerifyAlwaysMisses | src/controllers/auth.controller.ts:13-101 | with the cache never filled, any verification request that carries both an email and a code gets 404 |
| AuthController.ExpiredSignupOtpIsGone | dist/controllers/auth.controller.js:24-89 | with the TTL equal to the code's lifetime, "OTP has expired" is never answered, and a late code gets 404 |
| AuthController.SignupRoundTrip | dist/controllers/auth.controller.js:40-105 | a code verified within its minute creates a verified account that then logs in with the signup password |
| AuthController.TwoFactorToggleInvolution | dist/controllers/auth.controller.js:382 | toggling two-factor twice restores the record |
| AuthController.TwoFactorCodeSingleUse | dist/controllers/auth.controller.js:420-435 | after a successful two-factor login the same code is refused |
| AuthController.SignupVerificationOpensReset | dist/controllers/auth.controller.js:95 | as written, an account fresh from signup verification can have its password reset without any reset code |
| AdminController.PromotionLinkReply | src/controllers/admin.controller.ts:17-44 | 404 for an unknown email, else 200 |
| AdminController.Promoted | src/controllers/admin.controller.ts:84-86 | role becomes "admin" where the schema declares it, and the token and its expiry are cleared; nothing else changes |
| AdminController.PromoteReply | src/controllers/admin.controller.ts:61-83 | 400 without a token, 404 for an unknown token, 400 when `expiry < now`; 200 exactly otherwise, so an expiry equal to now passes |
| AdminController.SetPasswordLinkReply | src/controllers/admin.controller.ts:135-148 | 400 without an email, 404 for an existing one, else 200 |
| AdminController.WithStatus | src/controllers/admin.controller.ts:235-248 | the status becomes "active" or "inactive" where the schema declares it; nothing else changes |
| AdminController.ParseAction | src/controllers/admin.controller.ts:210-220 | only "activate" and "deactivate" are accepted, with distinct errors for a missing and a wrong action |
| AdminController.StatusReply | src/controllers/admin.controller.ts:207-258 | action checks before lookup; 400 when already in the target state; 200 exactly when the transition is possible |
| AdminController.CountStatus | src/controllers/admin.controller.ts:264-265 | how many users have a given status, never more than there are users |
| AdminController.CountUpdate | src/controllers/admin.controller.ts:264-265 | rewriting one user moves at most that user between counts |
| AdminController.FindTicket | dist/controllers/admin.controller.js:343 | the first complaint with the ticket id, or none |
| AdminController.ComplaintReply | dist/controllers/admin.controller.js:336-374 | 400 for a missing field, 404 for an unknown ticket or user, else 200 |
| AdminController.AdminStore.SendAdminPromotionLink | src/controllers/admin.controller.ts:12-55 | on 200 the user holds the 40-hex token with expiry now + 1 h; otherwise nothing changes |
| AdminController.AdminStore.PromoteToAdmin | src/controllers/admin.controller.ts:57-101 | on 200 the token's user is promoted; otherwise nothing changes |
| AdminController.AdminStore.SendSetPasswordLink | src/controllers/admin.controller.ts:132-158 | on 200 exactly one user holding only the email is created; otherwise nothing changes |
| AdminController.AdminStore.ActivateOrDeactivateUser | src/controllers/admin.controller.ts:207-258 | on 200 the target's status is set; otherwise nothing changes |
| AdminController.AdminStore.GetInfoAboutUsers | src/controllers/admin.controller.ts:262-272 | the active and inactive counts |
| AdminController.AdminStore.ReplyToComplaint | dist/controllers/admin.controller.js:334-379 | on 200 the complaint is "Resolved" with the reply text; otherwise complaints are unchanged |
| AdminController.CountsDisjoint | src/controllers/admin.controller.ts:264-265 | active and inactive counts together never exceed the number of users |
| AdminController.PromotionSingleUse | dist/controllers/admin.controller.js:86-89 | after a promotion the same token is refused |
| AdminController.FreshLinkPromotes | src/controllers/admin.controller.ts:24-88 | a freshly sent link promotes within the hour |
| AdminController.DeactivateThenActivate | src/controllers/admin.controller.ts:229-248 | deactivating then activating restores an active user |
| AdminController.ActionMovesCount | src/controllers/admin.controller.ts:235-265 | a successful deactivation moves one user from the active count to the inactive count |
| AdminController.CompiledSchemaStatus | dist/models/users.model.js:38-110 | without `account_status` in the schema, deactivation is always refused and activation saves nothing |
| AdminStats.ParseTimeframe | src/controllers/admin.controller.ts:277-313 | defaults to weekly; any string other than weekly, monthly or yearly is "Invalid timeframe" |
| AdminStats.FindBucket | src/controllers/admin.controller.ts:327 | `data.find` returns the first bucket with the key |
| AdminStats.Series | src/controllers/admin.controller.ts:325-332 | exactly n entries, entry i the count of bucket i + 1 or 0 |
| AdminStats.WeeklyChart | src/controllers/admin.controller.ts:323-344 | as written: entry i counts bucket i + 1, under the labels "Mon" to "Sun" |
| AdminStats.WeeklyChartCorrected | src/controllers/admin.controller.ts:326-327 | the corrected chart: the same series, with entry i under the day `$dayOfWeek` numbers i + 1 |
| AdminStats.MonthlyChart | src/controllers/admin.controller.ts:345-365 | twelve counts under the twelve month names |
| AdminStats.YearlyChart | src/controllers/admin.controller.ts:366-385 | one entry per bucket in order; a null bucket makes `toString` throw and the reply 500 |
| AdminStats.TimeFrameData | src/controllers/admin.controller.ts:275-387 | 400 exactly for an invalid timeframe; otherwise the chart of that timeframe, the weekly one with the handler's own labels |
| AdminStats.WeekdayLabelsShifted | src/controllers/admin.controller.ts:285 | as written, Sunday's count is shown under "Mon" and no label names its own day |
| AdminStats.WeeklyLabelsMatchBuckets | src/controllers/admin.controller.ts:326-327 | in the corrected chart every count sits under the day its bucket numbers |
| AdminStats.SumSeries | dist/controllers/admin.controller.js:273-300 | the sum of the series is the total shown for buckets 1..n |
| AdminStats.ShownEmpty | dist/controllers/admin.controller.js:273-300 | with no buckets every count shown is zero |
| AdminStats.ShownCons | dist/controllers/admin.controller.js:273-300 | a bucket with a new key adds its count exactly when its key is in range |
| AdminStats.ShownAll | dist/controllers/admin.controller.js:273-300 | with distinct in-range keys the counts shown add up to every document |
| AdminStats.SeriesCountsEveryone | src/controllers/admin.controller.ts:318-332 | with distinct in-range keys the zero-filled series accounts for every document; with this schema that holds only for documents given `createdAt` outside these handlers, since otherwise every key is null (`NullBucketsChartZero`) |
| AdminStats.NullBucketsChartZero | src/controllers/admin.controller.ts:303-330 | with every document in the null bucket the weekly and monthly series are all zero |
| AdminStats.YearlyLabelsRoundTrip | src/controllers/admin.controller.ts:368-378 | each yearly label reads back as the year of the count beside it |

## Left out

- Mail delivery (`sendMail`): the replies model the state it leaves, and a mail failure inside a `try` is not modelled.
- HTTP plumbing: response bodies beyond status and message, cookie setting and clearing, `logout`, and the `success` flags (except the security toggles' flag).
- Activity-log records that some compiled handlers write after saving.
- `getLoggedInUserData` and `deleteAccount` of the compiled auth controller.
- Google OAuth, routes, server set-up, and the complaints, settings and activity controllers.
- Mongoose internals:
  - errors thrown by `save()` other than the unique-email index;
  - the exact text of cast errors;
  - ObjectIds, which are modelled as naturals written in decimal.
- The aggregation pipeline of `getDataOnTimeFrame`: its buckets are an input.
- Randomness: OTPs, promotion tokens and ticket ids are parameters, constrained only to the shapes the generators produce.
- Clocks: the current time is a parameter.
- NodeCache's timer: eviction is the entry's `evictAt`, compared with `now` when the entry is read.
- Concurrency between requests.
- bcrypt and JWT cryptography: hashing is an injective stand-in, and a token string is decoded by a function passed in.
- AdminController.AdminStore.SendSetPasswordLink: when the email is missing, the source answers 400 but does not return, and `User.create` then fails the schema's required email. The model takes that path as a 400 with no change. The `catch`'s second reply (400 with the validation error) fails because the response was already sent, and the resulting unhandled rejection is not modelled.
- AuthController.AuthStore.Login: the TypeScript lookup selects only `email` and `password`, so the model's payload is `{id, email}`; the partial document that is saved back is modelled as the full document with `last_login` set.
- AuthController.AuthStore.ResetPassword: keeps the guard as written. The corrected guard is modelled beside it for one account by `Credentials.Step`, with a reset-verification flag that no schema declares.
- SecurityController.ToggleReply: the `user` sent back in the reply body is not modelled.
- AuthController.ExpiredSignupOtpIsGone: a request reads one instant, and the cache entry's eviction time is taken equal to its `otp_expiry`. The source reads `Date.now()` separately in `userCache.set` and for `otp_expiry` (dist/controllers/auth.controller.js:42-47), and again in `userCache.get` and the expiry comparison (lines 76 and 85). A request that falls in the millisecond between those reads can still be answered 400 "OTP has expired".
- Request values are modelled as strings, with "" for an absent value. JSON bodies and query strings can also carry objects and arrays, which Mongoose runs as query operators in a filter such as `findOne({ email })`; these are not modelled. For example, `resetPassword` with the email `{"$ne": ""}` (dist/controllers/auth.controller.js:302-309) matches the first user and resets it when that user's `is_verified` holds. This widens the first row of Findings to accounts whose email the caller does not know. `promoteToAdmin`'s `findOne({ reset_token: token })` (src/controllers/admin.controller.ts:67) is open to the same kind of input.

## Findings

| source | as written | input that shows it | evidently intended | confidence | as-written member | corrected member |
|---|---|---|---|---|---|---|
| dist/controllers/auth.controller.js:95 | signup verification creates the user with `is_verified: true`, the same flag that `resetPassword` (line 309) takes as proof of a verified reset code | sign up and verify as `a@b.com`, then `resetPassword("a@b.com", "x")` with no reset OTP: 200, and the password is replaced | reset only after a reset code was verified, with a flag that only reset verification sets and that every new code and every reset clears | not executed; high | AuthController.SignupVerificationOpensReset | Credentials.CorrectedResetNeedsVerifiedCode |
| src/controllers/admin.controller.ts:285 | weekday labels start at "Mon", but bucket i + 1 is MongoDB's `$dayOfWeek`, where 1 is Sunday | one user document carrying a Sunday `createdAt`, which these handlers never write (no schema declares it; otherwise every count is zero, `NullBucketsChartZero`): the weekly chart shows 1 under "Mon" | labels from Sunday to Saturday | not executed; high | AdminStats.WeekdayLabelsShifted | AdminStats.WeeklyLabelsMatchBuckets |

The first row widens when a request value is an object. An email such as `{"$ne": ""}` makes `findOne({ email })` match the first user, so the takeover also reaches accounts whose email the caller does not know. The model takes request values as strings and does not capture this (see Left out).
