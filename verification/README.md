# OpenPass: proofs about the vault server

A Dafny model of the OpenPass password vault: what its small algorithms compute, and what its relational
state machines keep over whole runs. `dafny verify dfyconfig.toml` checks everything.

The imperative parts of the server are classes, arrays and loops that are proved to do what a pure
specification says; the main results are lemmas about that specification, for all inputs and all runs.

| module | models |
|---|---|
| Text, Seqs, Bytes, Base64Url | strings, sequences, bytes and base64url as the Go code uses them |
| CipherString | PKCS#7, CBC, encrypt-then-MAC and the printed CipherString; user-key wrapping |
| Pbkdf2 | the hand-written PBKDF2 of the backup code |
| Limiter, KeyLookup | the sliding-window limiter with in-place pruning; API keys and their prefix index |
| Shuffle, Password | Fisher-Yates over explicit draws; the password generator |
| Totp, TotpSecret | the generating and the validating TOTP implementation; pasted secrets |
| HostMatch | host relatedness, match ranking, the scoped match endpoint |
| VaultStore, StoreEffects, VaultService, VaultBackup | the multi-tenant vault tables, and exactly what each operation does to them |
| ApiScope, RouteAnswers | scoped API keys on every route |
| ChromeImport, ImportedEntries, ChromeAccounts | the CSV import: dry and real runs, what it writes, and the accounts in which it is safe |
| Backup, RestoredRows, BackupFile | export and restore of one account over five tables; the encrypted file around it |
| Bitwarden, Grants, ClientRequests, RefreshTokens, RememberedDevices, VaultKeys, BitwardenService, BitwardenWorld | accounts, devices, grants and key material of the Bitwarden-compatible API |
| BitwardenItems, ItemEffects | folders, ciphers and the bulk import of that API |
| Accounts, PanelRequests, AccountRuns, AccountService, Credentials | panel accounts, sessions, recovery keys |

Random values, fresh ids, nonces and clock readings are inputs. Library code enters as functions with only
the laws that are used: AES is a permutation of 16-byte blocks with an inverse, HMAC has a fixed output
length, base64 and base32 decode what they encode, an authenticated cipher opens what it sealed. Where a result needs
that the values in hand do not collide under a hash or a cipher, its lemma says so of those values. Nothing is
claimed about secrecy or probability.

## Where code and documentation differ

The code is modelled as it is. Where a promise does not hold for it, the exact condition is proved.

- An API key's vault scope confines the key exactly when the key has no backup permission, writes entries only
  with a scope whose elements, trimmed, are non-blank and in the scope, and reads entries only with a scope
  without a blank element (`ApiScope.ConfinedExactlyWhenConfining`): the backup routes do not look at the scope,
  the create handler checks the vault id as sent and the store then trims it, and the lookup of a missing entry
  continues with a blank vault and entry id.
- A restore leaves the other accounts untouched exactly when each entry of the document names a vault of the
  document and no audit row of another owner names a key of the restoring one
  (`Backup.OthersUntouchedExactlyWhenClosed`): entry rows are not re-owned, and deleting a key sets the audit rows
  that name it to NULL. A restored document can bring such an audit row about (`Backup.TwoRestoresReachOther`).
  README.md:302-303 and the comment at backup.go:139-142 say other accounts are untouched.
- A security-stamp reset deletes the user's devices; a panel password set before the next client login then
  replaces the user key (`VaultKeys.StampThenPanelPasswordLosesVault`), against service.go:43-46 and
  README.md:252-259.
- A host parsed from a URL is not trimmed by the import but is by the store, so a row can fail; and the store trims
  the destination's id, which a restore can have written with outer white space, so every row can fail. Over the
  accounts whose destination is covered, a file is safe exactly when each of its rows has no password, a name, or a
  host without outer white space (`ChromeImport.NeverFailsExactlyWhenFileFits`, `ChromeImport.NoBreakSpaceHostFails`).
  Over the files that fit, an account is safe exactly when its destination is covered: CreateEntry takes the id, and
  the import lists every plain path of the vault the entries go to (`ChromeAccounts.SafeExactlyWhenCovered`,
  `ChromeAccounts.RestoredIdFails`).
- Importing an export again, which chromeimport.go:60-61 calls safe, changes nothing exactly in accounts where the
  destination is found again and its id is blank, has no outer white space, or is refused
  (`ChromeAccounts.SettlesExactlyWhenSettled`).
- The limiter's bound holds for half-open windows; for closed ones it holds exactly when no two calls can be one
  window apart (`Limiter.ClosedBoundExactlyWhenNoneOneWindowApart`).
- Relatedness of hosts is transitive exactly through hosts of two or more labels
  (`HostMatch.TransitiveExactlyAtTwoLabels`).
- The comment at admin.go:329-330 says trimming "OP" and "OPREC" never eats part of a recovery key's body; it
  does when "OP" alone stands before a body that begins with "REC" (`Credentials.NormalForms`).
- The last-admin check never refuses in serial runs (`AccountRuns.LastAdminNeverRefuses`): what keeps an
  active admin is that nobody edits or deletes the own account.
- A password set with outer blanks is stored trimmed but checked as typed (`Credentials.LoginAfterRecovery`).

## Model

| member | source | states |
|---|---|---|
| `CipherString.OpenedSealed` | internal/bitwarden/bwcrypto/bwcrypto.go:193-265 | decrypting what was encrypted gives the plaintext back for every 64-byte key, 16-byte IV and plaintext of any length: through padding, CBC, MAC check, base64url and the split on dots |
| `CipherString.OpenedPartsAreSealed` | internal/bitwarden/bwcrypto/bwcrypto.go:218-265 | authenticated parts open to a plaintext if and only if they are exactly its IV, its padded CBC ciphertext and its MAC |
| `CipherString.SealedParts` | internal/bitwarden/bwcrypto/bwcrypto.go:211-221 | the printed string splits into exactly the four parts it was printed from, since an encoding never holds a dot |
| `CipherString.EncryptedIsChained` | internal/bitwarden/bwcrypto/bwcrypto.go:207-209 | block i of a ciphertext is the image under the key of plaintext block i XOR the block before, or the IV for the first |
| `CipherString.DecryptedIsUnchained` | internal/bitwarden/bwcrypto/bwcrypto.go:249-254 | and block i of a decryption is the inverse image of ciphertext block i XOR the block before |
| `CipherString.ChainedIffEncrypted` | internal/bitwarden/bwcrypto/bwcrypto.go:207-209 | that equation for every block has the computed ciphertext as its only solution |
| `CipherString.SealedIsCipher` | internal/bitwarden/bwcrypto/bwcrypto.go:193-214 | what is printed is the IV, the chain of the padded plaintext under bytes 0..31 of the key, and the MAC of both under bytes 32..63 |
| `CipherString.OpensExactlyCiphers` | internal/bitwarden/bwcrypto/bwcrypto.go:218-265 | a string opens to a plaintext if and only if it is unencrypted in format 0, or its four pieces are the IV, chain and MAC of that plaintext under those two halves of a 64-byte key |
| `CipherString.UnauthenticIsRefusedFirst` | internal/bitwarden/bwcrypto/bwcrypto.go:227-243 | a printed string gets the authentication error exactly when its MAC is another one, whatever its lengths and padding |
| `CipherString.UnwrapsExactlyCiphers` | internal/bitwarden/bwcrypto/bwcrypto.go:128-158 | a wrapped key unwraps to exactly the user key whose cipher it is under the two halves of the stretched master key |
| `CipherString.HashHolds` | internal/bitwarden/bwcrypto/bwcrypto.go:110-113 | the stored text decodes to the 32 bytes of one PBKDF2 iteration over the master key with the salt |
| `CipherString.VerifiesExactly` | internal/bitwarden/bwcrypto/bwcrypto.go:117-124 | a stored text verifies a key if and only if it decodes to at least one byte and the derivation of that length equals it |
| `CipherString.UnpaddedIffPadded` | internal/bitwarden/bwcrypto/bwcrypto.go:164-188 | a block-aligned buffer unpads to p exactly when it is the PKCS#7 padding of p |
| `CipherString.Pad` | internal/bitwarden/bwcrypto/bwcrypto.go:164-172 | the buffer-filling loop yields the PKCS#7 padding |
| `CipherString.Unpad` | internal/bitwarden/bwcrypto/bwcrypto.go:174-188 | the checking loop accepts exactly the buffers whose last byte n in 1..16 is repeated n times, and strips them |
| `CipherString.CbcDecryptEncrypt` | internal/bitwarden/bwcrypto/bwcrypto.go:207-209 | CBC decryption undoes CBC encryption over any number of blocks, for any block permutation |
| `CipherString.CbcEncryptDecrypt` | internal/bitwarden/bwcrypto/bwcrypto.go:249-254 | CBC encryption undoes CBC decryption, so no two ciphertexts share a plaintext under one key and IV |
| `CipherString.Encrypt` | internal/bitwarden/bwcrypto/bwcrypto.go:193-214 | fails exactly for a key that is not 64 bytes long, else returns the sealed string |
| `CipherString.Decrypt` | internal/bitwarden/bwcrypto/bwcrypto.go:218-265 | succeeds exactly on the strings that open, with every format, length, MAC and padding error refused |
| `CipherString.UnwrapWrapped` | internal/bitwarden/bwcrypto/bwcrypto.go:151-158 | a master key unwraps the user key it wrapped |
| `CipherString.VerifyHashed` | internal/bitwarden/bwcrypto/bwcrypto.go:110-124 | a stored master-key hash verifies exactly the master keys with the same derived hash, its own among them |
| `Base64Url.DecodeEncode` | internal/bitwarden/bwcrypto/bwcrypto.go:160-162 | base64url decoding undoes encoding for byte strings of every length |
| `Base64Url.EncodeAlphabet` | internal/bitwarden/bwcrypto/bwcrypto.go:160-162 | an encoding holds alphabet characters only, hence never the separator |
| `Base64Url.SextetCharMeans` | internal/bitwarden/bwcrypto/bwcrypto.go:160-162 | sextet n is written as character n of the URL-safe alphabet of RFC 4648 |
| `Base64Url.GroupMeans` | internal/bitwarden/bwcrypto/bwcrypto.go:160-162 | three bytes and their four sextets are the same 24-bit number, and a short group is filled with zero bits |
| `Base64Url.ReadsAlphabetOnly` | internal/bitwarden/bwcrypto/bwcrypto.go:231-242 | a text is readable exactly when it holds alphabet characters and line breaks only |
| `Pbkdf2.Pbkdf2F` | internal/backup/backup.go:499-519 | the loop that XORs into one buffer computes F of section 5.2 of RFC 8018 (an iteration count below 1 counts as 1) |
| `Pbkdf2.Pbkdf2Key` | internal/backup/backup.go:488-497 | block concatenation and the final slice, shown in bounds, compute the derived key of RFC 8018 for any PRF of fixed length |
| `Pbkdf2.XorInto` | internal/backup/backup.go:514-516 | the inner loop leaves the exclusive or of the old buffer and u in place |
| `Pbkdf2.FourOctets` | internal/backup/backup.go:502-507 | the four shifted bytes are the big-endian block number |
| `Pbkdf2.ShorterKeyIsPrefix` | internal/backup/backup.go:488-497 | a shorter derived key is a prefix of a longer one |
| `Pbkdf2.BlockIsParity` | internal/backup/backup.go:499-519 | F of a block is, bit for bit, the parity of a chain of c strings: the first the PRF of the salt and the four octets of the block number, each other the PRF of the one before |
| `Pbkdf2.KeyOctet` | internal/backup/backup.go:488-497 | octet j of the derived key is octet j mod hLen of F of block j / hLen + 1 |
| `Pbkdf2.BlockMessagesDiffer` | internal/backup/backup.go:499-507 | different blocks below 2^32 feed different messages to the PRF |
| `Limiter.Limiter.Allow` | internal/apikeys/apikeys.go:496-518 | answers as a limiter that keeps every grant for ever, prunes only the asked key, and leaves all other lists as they were |
| `Limiter.Prune` | internal/apikeys/apikeys.go:505-510 | the in-place filter over current[:0] keeps exactly the hits after the cutoff, in order |
| `Limiter.StepAgrees` | internal/apikeys/apikeys.go:496-518 | lists that agree with the full history on every later window decide as the history does, and still agree afterwards |
| `Limiter.FreshLimiterNeverOverfull` | internal/apikeys/apikeys.go:486-518 | with a fixed limit L and a non-decreasing clock, no window-long half-open interval ever holds more than L grants of a key, over every sequence of calls |
| `Limiter.WindowNeverOverfull` | internal/apikeys/apikeys.go:486-518 | the same bound from any history that meets it, with other keys called in between |
| `Limiter.DeniedOnlyWhenFull` | internal/apikeys/apikeys.go:511-517 | a call is denied if and only if exactly L grants lie in the window that ends at it |
| `Limiter.UnlimitedIsGranted` | internal/apikeys/apikeys.go:496-499 | a key without a limit is always granted, and its calls are not counted |
| `Limiter.ClosedIntervalCanHoldMore` | internal/apikeys/apikeys.go:500-507 | for every limit L, window and instant t: L calls at t and one at t plus the window are all granted, L + 1 in one closed interval |
| `Limiter.ClosedBoundExactlyWhenNoneOneWindowApart` | internal/apikeys/apikeys.go:486-518 | every monotone fixed-limit run whose calls of a key fall in a set of instants keeps the bound on closed intervals if and only if no two of these instants are one window apart |
| `KeyLookup.IndexAgreesWithFullScan` | internal/apikeys/apikeys.go:260-287 | over rows written by Create, for a token that collides with no issued one, the prefix index gives the same key, status and limiter history as trying every active row in order |
| `KeyLookup.AcceptedMeansMatched` | internal/apikeys/apikeys.go:260-287 | an accepted request carries the token of the returned stored, active key, not later than its expiry, from one of its addresses, for one of its permissions, within its limit, and uses up exactly one grant of it |
| `KeyLookup.FirstInForceDecides` | internal/apikeys/apikeys.go:260-287 | exactly which answer: the first active row of the token's prefix and hash whose expiry has not passed and whose addresses hold the caller decides by permission, then limit; without one the request is unauthorized and the limiter untouched |
| `KeyLookup.MatchingTokenHasPrefix` | internal/secure/crypto.go:40-66 | a token that matches the hash of a written row, and collides with no other issued token, has that row's prefix |
| `KeyLookup.Service.Create` | internal/apikeys/apikeys.go:114-194 | refuses exactly a blank name or a token of fewer than 8 bytes; else one row with prefix and hash of the trimmed token, every other column as asked and 60 grants a minute if not asked is appended |
| `KeyLookup.Service.Authenticate` | internal/apikeys/apikeys.go:260-287 | answers as the scan of every active row for a token that collides with no issued one; stamps the accepted key only, and keeps the written rows written |
| `KeyLookup.Service.CheckCandidate` | internal/apikeys/apikeys.go:427-465 | hash, expiry, address, limit and permission are tried in this order, and only the limiter changes |
| `Shuffle.ShuffleIsBijection` | internal/password/password.go:236-247 | for every n, draws j_i in 0..i and permutations of n positions correspond one to one: every permutation from exactly one draw sequence |
| `Shuffle.ShuffledAppliesPermutation` | internal/password/password.go:236-247 | shuffling any values, repeated ones included, applies the position permutation of the same draws |
| `Shuffle.ShuffledFromOnto` | internal/password/password.go:236-247 | every rearrangement of a sequence is reached by some draws |
| `Shuffle.ShuffledFromInjective` | internal/password/password.go:236-247 | on distinct values different draws give different results |
| `Password.ShuffleInPlace` | internal/password/password.go:236-247 | the in-place pass over the array performs the shuffle of the source's draws and consumes one draw per step, or stops when the source fails |
| `Password.Generate` | internal/password/password.go:54-109 | succeeds exactly for a length of 4..256, a selected class and 2*length-1 random numbers, with the right error otherwise; in the password a class occurs if and only if its option is on, and nothing else occurs |
| `Password.PasswordsKeepPolicy` | internal/password/password.go:47-109 | every generated password has the asked length, only selected characters and one of every selected class, after the shuffle |
| `Password.GeneratorIsExact` | internal/password/password.go:54-109 | the strings that keep the policy are exactly the strings the generator can return |
| `Password.PolicyMeans` | internal/password/password.go:54-109 | keeping the policy is having the asked length, only letters, digits and the listed symbols whose options are on, none of "il1IoO0" when excluded, and a character of a class if and only if its option is on |
| `Password.NoAmbiguousGlyphs` | internal/password/password.go:193-205 | with the exclusion on, no character of a policy-keeping password is an ambiguous glyph |
| `Password.Class` | internal/password/password.go:194-205 | the loop keeps exactly the unambiguous characters of a class, in order |
| `Password.Place` | internal/password/password.go:84-103 | one character per class and then fill from the joint pool, before the shuffle |
| `Totp.GeneratedCodesAreAccepted` | internal/bitwarden/totp.go:30-49 | with SHA1, 6 digits and 30 s, a code the generator gives at t is accepted at every t' whose time step differs by at most one |
| `Totp.AcceptedCodesAreGenerated` | internal/bitwarden/totp.go:30-49 | conversely every accepted code is the generator's code for an instant within one step |
| `Totp.ValidateTotp` | internal/bitwarden/totp.go:30-49 | accepts exactly the codes of the previous, current and next time step, for any secret and any input text |
| `Totp.HotpIsOtp` | internal/bitwarden/totp.go:51-60 | the mask-and-modulo printing of one implementation equals the last-digits printing of the other |
| `Totp.CodeMeans` | internal/totp/totp.go:143-200 | the code writes, in the asked number of decimal digits, the RFC 4226 truncation of the HMAC of the eight-byte time step under the named hash; SHA1, 6 digits and 30 s stand in for what is not set |
| `Totp.AcceptedMeans` | internal/bitwarden/totp.go:30-60 | a text is accepted if and only if, trimmed, it is six digits that write the truncated HMAC-SHA1 of the previous, current or next 30-second step under the capitalised secret |
| `Totp.SubtleTotpEqual` | internal/bitwarden/totp.go:62-71 | the accumulating comparison decides equality |
| `Totp.Generate` | internal/totp/totp.go:143-200 | fails exactly for a secret that is not base32, else returns code, period, remaining seconds and digits of the instant, defaults applied |
| `Totp.CounterBuffer` | internal/totp/totp.go:170-174 | the shifting loop writes the counter big-endian into eight bytes |
| `Totp.WindowIsExact` | internal/totp/totp.go:149-199 | the remaining seconds lie in 1..period, the code is constant until then, and t plus the remainder is the first instant with another counter, for every positive period |
| `Totp.PrintedCode` | internal/totp/totp.go:178-195 | masking the top bit with 31-bit arithmetic and printing with leading zeros gives exactly the last 6 to 9 digits |
| `Totp.TopBitDropped` | internal/totp/totp.go:181-184 | assembling four masked bytes with shifts is the word modulo 2^31 |
| `TotpSecret.Parse` | internal/totp/totp.go:61-127 | check by check, the accepted texts and parameter sets and the resulting configuration |
| `TotpSecret.ParsedIsUsable` | internal/totp/totp.go:61-140 | a parsed configuration always has a key, 6..10 digits, a positive period and a known hash, so that no default of the generator applies |
| `TotpSecret.ParsedCarriesValues` | internal/totp/totp.go:69-127 | exactly which URIs are accepted, and that digits, period and algorithm are then the given ones, with 6, 30 and SHA1 only where the URI is silent |
| `TotpSecret.PlainHasDefaults` | internal/totp/totp.go:61-127 | a secret without a URI gets SHA1, six digits and 30 seconds |
| `TotpSecret.SecretMeans` | internal/totp/totp.go:130-140 | what is kept of a secret is non-empty base32 in capitals without separators, and a clean secret is kept whole |
| `TotpSecret.FormattingIsIgnored` | internal/totp/totp.go:129-140 | a blank, dash or equals sign anywhere in a secret, or small letters, change nothing |
| `TotpSecret.PastedSecretAgrees` | internal/totp/totp.go:61-127 | the codes of any accepted plain secret pass the other implementation within one step |
| `HostMatch.HostScoreByLabels` | internal/vault/match.go:116-141 | the string suffix tests see label boundaries only: the score is a function of the two label lists |
| `HostMatch.HostScoreSwap` | internal/vault/match.go:116-129 | swapping the hosts fixes 100, 40 and 0 and exchanges 80 with 60 |
| `HostMatch.ScoresMean` | internal/vault/match.go:111-129 | 100 for the stored host itself, 80 exactly on its subdomains, 60 exactly on a host above it, 40 exactly for another host with the same last two labels, else 0 |
| `HostMatch.EntryHostMeans` | internal/vault/match.go:77-91 | the site of an entry is the host of its URL, or failing that of a name with a dot |
| `HostMatch.SortedIsRanked` | internal/vault/match.go:55-60 | the order of the list means: scores never rise, and among equal scores paths never fall |
| `HostMatch.RelatedIffLastLabelsAgree` | internal/vault/match.go:116-141 | for all hosts, the score is positive exactly when the last min(2, labels) labels agree |
| `HostMatch.RelatedByLastTwo` | internal/vault/match.go:116-141 | for hosts of two or more labels: related exactly when their last two labels agree |
| `HostMatch.TransitiveExactlyAtTwoLabels` | internal/vault/match.go:116-141 | relatedness is transitive through a host, whatever the outer hosts, if and only if that host has two or more labels |
| `HostMatch.RelatedIsEquivalence` | internal/vault/match.go:111-141 | relatedness is reflexive and symmetric on all hosts, and transitive through every host of two or more labels |
| `HostMatch.OneLabelHostBreaksTransitivity` | internal/vault/match.go:116-141 | for every one-label host two hosts below it that are related to it and not to each other |
| `HostMatch.MatchEntries` | internal/vault/match.go:28-73 | returns exactly the related login entries, each with its score, as a stable sort in which scores never rise and equal scores have rising paths |
| `HostMatch.MatchesAreRelatedLogins` | internal/vault/match.go:22-73 | an entry is matched if and only if it is a login whose site is known and related to the host |
| `HostMatch.StableSortSorted` | internal/vault/match.go:55-60 | the result is ordered by falling score and rising path |
| `HostMatch.FilterCommutesWithSort` | internal/vault/vault.go:567-573 | filtering before or after the stable sort gives the same list |
| `HostMatch.KeepInScope` | internal/vault/vault.go:567-573 | the in-place filter over matches[:0] moves exactly the in-scope matches to the front, in order |
| `HostMatch.ScopedMatchesAreMatchesOfTheScope` | internal/vault/vault.go:548-573 | the match endpoint answers as if the owner had only the entries of the key's scope |
| `VaultStore.OthersCouldBeAbsent` | internal/vault/vault.go:69-329 | in every interleaving of calls by any owners, an owner ends with the rows and has seen the results of a run in which the others and their rows never existed |
| `VaultStore.OwnRowsDecide` | internal/vault/vault.go:69-329 | a call's result and the owner's next rows are a function of the owner's own rows, the inputs, the clock and fresh ids |
| `VaultStore.OthersUntouched` | internal/vault/vault.go:69-329 | a call leaves every row of every other owner as it was |
| `VaultStore.ForeignIsMissing` | internal/vault/vault.go:667-689 | asking for a row of somebody else changes nothing and is answered as on an empty database |
| `VaultStore.StepValid` | internal/vault/vault.go:69-329 | every call keeps the foreign key and UNIQUE (vault_id, path) |
| `VaultStore.StoredValueIsRevealed` | internal/vault/vault.go:320-329 | what a create or update stored is what a reveal returns, under any nonce |
| `StoreEffects.EntryEdited` | internal/vault/vault.go:202-253 | an edit succeeds exactly for a path, an entry of the caller and a free name; it changes path, kind, metadata, tags and time, leaves vault, second factor and creation time, and seals a value only when one is given |
| `StoreEffects.BlankValueKeepsSecret` | internal/vault/vault.go:236-247 | an edit without a value changes what no owner is shown of any entry |
| `StoreEffects.NewValueIsShown` | internal/vault/vault.go:225-235 | an edit with a value is what the owner is shown afterwards |
| `StoreEffects.EntryCreated` | internal/vault/vault.go:148-200 | exactly when an entry is created, in the named, the oldest or a new "Principal" vault, and with which columns |
| `StoreEffects.EntryDeleted` | internal/vault/vault.go:255-266 | an entry of the caller goes, alone; any other id is not found |
| `StoreEffects.EntryRead` | internal/vault/vault.go:317-329 | exactly the caller's entries are shown and revealed, each as its row has it |
| `StoreEffects.EntriesListed` | internal/vault/vault.go:268-315 | a listing holds exactly the caller's entries of the named vault, else of the scope, and shows every column but the value and the second-factor secret |
| `StoreEffects.VaultCreated` | internal/vault/vault.go:69-85 | exactly when a vault is created, and its row |
| `StoreEffects.VaultEdited` | internal/vault/vault.go:87-103 | exactly when a vault is renamed; owner and creation time stay |
| `StoreEffects.VaultDeleted` | internal/vault/vault.go:105-115 | a vault of the caller goes with exactly its entries |
| `StoreEffects.VaultsListed` | internal/vault/vault.go:117-146 | a listing holds exactly the caller's vaults of the scope |
| `VaultStore.Oldest` | internal/vault/vault.go:148-175 | the vault a new entry falls back to is the one every other vault of the owner is not older than |
| `VaultService.Service.CreateVault` | internal/vault/vault.go:69-85 | a blank name is refused; else exactly one row is added, trimmed, owned by the caller, under the fresh id |
| `VaultService.Service.UpdateVault` | internal/vault/vault.go:87-103 | renames a vault of the caller and keeps its owner and creation time; blank names and foreign ids change nothing |
| `VaultService.Service.DeleteVault` | internal/vault/vault.go:105-115 | removes the owner's vault with its entries, or answers not found |
| `VaultService.Service.DestinationVault` | internal/vault/vault.go:148-175 | resolves the wanted vault, the oldest, or a new "Principal" |
| `VaultService.Service.CreateEntry` | internal/vault/vault.go:148-200 | one sealed entry goes to the resolved vault; a blank path, a foreign vault or a taken path is refused |
| `VaultService.Service.UpdateEntry` | internal/vault/vault.go:202-253 | rewrites an entry of the caller in its own vault; a blank value keeps the stored one, a taken path is refused |
| `VaultService.Service.DeleteEntry` | internal/vault/vault.go:255-266 | removes the owner's entry only; every other owner's rows stay |
| `VaultService.Service.RevealEntry` | internal/vault/vault.go:320-329 | opens the owner's entry only |
| `VaultService.Service.ApiCreateEntry` | internal/vault/vault.go:602-623 | the request is refused unless the vault id as sent is in the key's scope; else it is the owner's create |
| `VaultService.Service.ApiUpdateEntry` | internal/vault/vault.go:625-647 | a foreign entry is missing and one outside the scope forbidden; else it is the owner's update, which never moves the entry |
| `VaultService.Service.ApiDeleteEntry` | internal/vault/vault.go:649-665 | a foreign entry is missing and one outside the scope forbidden and kept |
| `VaultService.Service.ApiGetEntry` | internal/vault/vault.go:587-600 | an entry outside the scope is not shown |
| `VaultService.Service.ApiMatchEntries` | internal/vault/vault.go:551-585 | the listed rows are matched, cut down in place to the scope and revealed one by one; nothing outside a scope is returned |
| `VaultService.Service.ApiCurrentCode` | internal/authenticator/authenticator.go:217-244 | a code is answered for an entry of the owner in the scope only, whose stored secret opens and makes one |
| `ApiScope.RunConfined` | internal/vault/vault.go:519-665 | no run of API requests, matches, codes and backups among them, with a scoped key whose permissions suit its scope returns or changes a vault or entry outside it |
| `ApiScope.ConfinedExactlyWhenConfining` | cmd/server/main.go:115-146 | a key with a non-empty scope is confined on every database and request if and only if it has no backup permission, writes entries only with a clean scope, and reads entries only with no blank scope item |
| `ApiScope.ConfinedExactlyWhenClean` | internal/vault/vault.go:602-623 | a key with the permissions of the vault routes is confined if and only if each scope element, trimmed, is non-blank and in the scope |
| `ApiScope.ExportShows` | cmd/server/main.go:116-127 | from every database with a vault of the owner outside the scope, an export under a password of the caller's own shows it |
| `ApiScope.RestoreDeletes` | cmd/server/main.go:129-145 | from every such database, a restore of an empty document deletes that vault |
| `ApiScope.BlankReveals` | internal/vault/vault.go:587-600 | with a blank scope item, asking for a missing entry answers the value of the entry with the blank id, from a vault outside the scope |
| `ApiScope.UncleanItemEscapes` | internal/vault/vault.go:602-623 | for every scope that is not clean there is a create request that lands outside it |
| `ApiScope.StepConfined` | internal/apikeys/apikeys.go:474-484 | one request with such a key shows and changes only the scope |
| `VaultBackup.RestoreIsBackupRestore` | internal/backup/backup.go:143-197 | the restore of these requests is the five-table restore, whatever the other tables hold and however the columns are written |
| `VaultBackup.RestoredValid` | internal/backup/backup.go:143-197 | it keeps the foreign key and UNIQUE (vault_id, path) |
| `ApiScope.MatchSeesScopeOnly` | internal/vault/vault.go:551-585 | the match route answers, values included, as if the rows outside the scope did not exist |
| `RouteAnswers.PermissionDecides` | internal/vault/vault.go:343-352 | without the permission of its route a request is denied and does nothing; with it, it is served |
| `RouteAnswers.EntryRoutes` | internal/vault/vault.go:587-665 | on an entry in a vault the key sees, reveal, update and delete answer as to the owner; in another vault they refuse; a foreign entry is missing |
| `RouteAnswers.VaultRoutes` | internal/vault/vault.go:519-532 | showing a vault and creating an entry answer as to the owner exactly when the key sees the vault named |
| `RouteAnswers.ListRoutes` | internal/vault/vault.go:509-549 | the listings hold exactly the owner's vaults and entries that the key sees |
| `RouteAnswers.CodeRoute` | internal/authenticator/authenticator.go:217-244 | a code is answered if and only if the entry is the owner's, its vault is seen, and its stored secret opens and makes that code |
| `RouteAnswers.MatchRoute` | internal/vault/vault.go:551-585 | every hit is an entry of the owner in a vault the key sees, with the revealed value when asked for |
| `RouteAnswers.MatchesRanked` | internal/vault/vault.go:551-585 | hits come with falling scores, and among equals with rising names, after the cut to the scope |
| `RouteAnswers.ExportRoute` | cmd/server/main.go:115-126 | an export holds exactly the owner's vaults and their entries |
| `ApiScope.HitsAreTheSitesLogins` | internal/vault/vault.go:551-573 | an entry is answered if and only if it is one of the owner's logins, in the scope, of a site related to the visited host |
| `ChromeImport.DryRunPredictsRealRun` | internal/chromeimport/chromeimport.go:62-194 | for a file that fits and an account whose destination is covered: the dry run reports the counts and names of the real run; Failed is 0, imported plus skipped is the number of data rows, and existing entries stay |
| `ChromeImport.SecondImportChangesNothing` | internal/chromeimport/chromeimport.go:60-194 | for a file that fits and a settled account, importing it again changes nothing and imports nothing |
| `ChromeImport.NeverFailsExactlyWhenFileFits` | internal/chromeimport/chromeimport.go:62-194 | in no account with a covered destination does a row of the file fail, if and only if each of its rows has no password, a name, or a URL whose host has no outer white space |
| `ChromeImport.SettledIsCovered` | internal/vault/vault.go:157-175 | a destination whose id is blank or has no outer white space is covered |
| `ChromeImport.MisfitFails` | internal/chromeimport/chromeimport.go:141-187 | for every other file there is an account with a covered destination in which its import has a failed row |
| `ChromeImport.NoBreakSpaceHostFails` | internal/chromeimport/chromeimport.go:141-187 | one such file: an unnamed login at "https://" U+00A0 "bank.example/", whose host keeps the space that the store trims |
| `ChromeImport.RunsAgree` | internal/chromeimport/chromeimport.go:122-191 | row by row, while hosts fit, every name CreateEntry could find taken stays in hand, both runs report the same, and for ids that are blank or plain the names in hand stay exactly the listed ones |
| `ChromeImport.UnresolvedImportsNothing` | internal/chromeimport/chromeimport.go:175-187 | into a vault whose trimmed id is nobody's or another owner's, no file writes or imports anything |
| `ChromeAccounts.SafeExactlyWhenCovered` | internal/vault/vault.go:157-175 | in an account no file that fits has a failed row, and a dry run predicts them all, if and only if CreateEntry takes the destination id and every plain path of the vault it puts entries in is among the names the import lists |
| `ChromeAccounts.SettlesExactlyWhenSettled` | internal/chromeimport/chromeimport.go:60-61 | in an account importing any fitting file twice changes nothing the second time if and only if the destination is found again and its id is blank, has no outer white space, or is refused by CreateEntry |
| `ChromeAccounts.RestoredIdFails` | internal/backup/backup.go:174-188 | a restore into an empty account reaches one whose vault id has outer white space: no import writes there, though a dry run of a fitting file promises otherwise |
| `ChromeImport.EveryRowCounted` | internal/chromeimport/chromeimport.go:122-191 | every data row is counted once, whatever happens to it |
| `ImportedEntries.ImportAddsItsLines` | internal/chromeimport/chromeimport.go:128-191 | whatever account and file, an import leaves every entry that was there, and each new one comes from one line: its name, its password sealed, kind "login", tag "chrome", and user name, URL and note under their headings exactly when not blank |
| `ImportedEntries.ImportedSecretIsTheLines` | internal/chromeimport/chromeimport.go:175-187 | whoever opens an imported entry is shown the password of its line, beside that line's notes |
| `ImportedEntries.EveryLoginIsThere` | internal/chromeimport/chromeimport.go:128-191 | after the import of a fitting file every line with a password and a name has an entry of that name in the destination, and as many entries are new as reported |
| `ImportedEntries.ReportNamesLines` | internal/chromeimport/chromeimport.go:157-190 | the report names as many lines as it counts, each with a password and that name |
| `ImportedEntries.ImportOpensVault` | internal/chromeimport/chromeimport.go:80-116 | a file is taken exactly when a heading reads "password"; it goes into the namesake vault updated last, or into a new one when there is none |
| `ImportedEntries.FoundIsLatest` | internal/chromeimport/chromeimport.go:93-102 | the vault found is the owner's namesake, letter case aside, that was updated last |
| `ImportedEntries.CellIsUnder` | internal/chromeimport/chromeimport.go:82-134 | a field of a line is the trimmed cell under the last column of its heading, and blank when there is none |
| `ImportedEntries.NameIs` | internal/chromeimport/chromeimport.go:142-156 | the name is the name column, else the host of the URL, else the user name; without a password or any of them the line is skipped |
| `ChromeImport.DryRowsWriteNothing` | internal/chromeimport/chromeimport.go:168-173 | a dry run leaves the database as it was |
| `ChromeImport.Import` | internal/chromeimport/chromeimport.go:62-194 | against the live service, ends in the tables and report of the modelled import |
| `ChromeImport.ImportRows` | internal/chromeimport/chromeimport.go:122-191 | the loop with its set of names and counters, writing through CreateEntry |
| `ChromeImport.PlanRows` | internal/chromeimport/chromeimport.go:122-173 | the loop of a dry run |
| `Backup.RestoreUndoesExport` | internal/backup/backup.go:143-197 | restoring a collected document succeeds exactly when the keys its audit rows name are restored with it or somebody else's; then the owner has exactly the collected rows, re-owned, plus one history row, the others what the deletes leave, and every key holds |
| `Backup.RestoreKeepsSharedOwners` | internal/backup/backup.go:143-197 | where audit rows share their key's owner, as recorded, the restore succeeds, keeps this, and changes no row of anybody else |
| `Backup.RestoreKeepsKeys` | internal/backup/backup.go:143-197 | whatever the document, a restore that succeeds keeps every foreign and unique key |
| `Backup.RestoreInPlace` | internal/backup/backup.go:143-197 | an account can always be restored from its own current export; nothing but the history row then changes if and only if no audit row of somebody else names one of its keys |
| `Backup.OthersUntouchedExactlyWhenClosed` | internal/backup/backup.go:139-188 | for any database with valid keys and any document whose restore succeeds, the other accounts are untouched if and only if each entry of the document names a vault of the document and no audit row of another owner names a key of the restoring one |
| `RestoredRows.RestoredRowsAre` | internal/backup/backup.go:163-197 | row by row, a committed restore leaves the others' rows and the collected ones under the new owner, with data, paths and keys as they were; an audit row of somebody else loses a key of the owner; one history row is new |
| `RestoredRows.CommitsExactlyWhen` | internal/backup/backup.go:163-197 | exactly which documents commit: distinct ids that nobody else has, every entry with its vault and a free name, every audit row with its key |
| `RestoredRows.InsertsExactlyWhen` | internal/backup/backup.go:388-407 | a list of inserts goes in exactly when its ids are new and distinct and each row is acceptable after those before it |
| `Backup.StrayEntryLandsAtOther` | internal/backup/backup.go:174-188 | a concrete restore that adds an entry to another account's vault |
| `Backup.TwoRestoresReachOther` | internal/backup/backup.go:50-59 | from every database: one account restores an audit row that names another's key, then that other restores an empty document, and the first account's row loses its key |
| `Backup.OthersKept` | internal/backup/backup.go:174-188 | whatever the document, the others' keys, vaults and history rows are unchanged, and of their audit rows those that name a key of the restoring owner lose that name and nothing else |
| `Backup.InsertedIsUnion` | internal/backup/backup.go:388-407 | a list of inserts that succeeds adds exactly its rows, all under new ids |
| `Backup.InsertSucceeds` | internal/backup/backup.go:388-407 | a list goes in whole when its ids are new and every prefix leaves the next row acceptable |
| `Backup.Database.Collect` | internal/backup/backup.go:309-330 | gathers every row of the owner in each table once, and no other |
| `Backup.Database.DeleteAll` | internal/backup/backup.go:50-59 | the deletes in foreign-key order leave exactly the others' rows, with audit references to deleted keys set to NULL |
| `Backup.Database.InsertTables` | internal/backup/backup.go:174-193 | stops at the first failing insert, else leaves the refilled tables |
| `Backup.Database.Restore` | internal/backup/backup.go:143-197 | commits and adds the history row, or leaves the database as it was when any insert fails |
| `BackupFile.FileRestoresAccount` | internal/backup/backup.go:103-197 | export to a file and restore from it: under the right passphrase the account comes back, exactly when the keys its audit rows name are at hand; under a wrong one that the cipher rejects nothing changes |
| `BackupFile.WhichPasswordsOpen` | internal/backup/backup.go:419-443 | of two passwords that the cipher tells apart, one opens the other's file exactly when they are equal, any two blank ones and the application secret counting as one |
| `BackupFile.OpensExactlyWithSamePassphrase` | internal/backup/backup.go:426-486 | an exported file gives its document back under the same passphrase, and nothing under another one that the cipher rejects |
| `BackupFile.ExportWrites` | internal/backup/backup.go:103-137 | a file names format, KDF, 600000 iterations and salt in the open, and holds "v2:" and the base64url of the nonce and the document sealed under the 32-byte PBKDF2 key of the passphrase |
| `BackupFile.ReadsExactly` | internal/backup/backup.go:143-161 | exactly which files give which document, whoever wrote them, files of the old format without a KDF included |
| `BackupFile.Export` | internal/backup/backup.go:103-137 | the envelope of the document under the derived key |
| `BackupFile.DecryptEnvelope` | internal/backup/backup.go:426-443 | legacy files, unknown KDFs, bad parameters and wrong keys, in this order |
| `BackupFile.RestoreFile` | internal/backup/backup.go:143-197 | anything wrong with the file or its rows leaves the database as it was |
| `RefreshTokens.NoEarlierTokenSurvives` | internal/bitwarden/api.go:1001-1007 | a refresh token issued before a master-password change or security-stamp reset of its user is never accepted again, whatever requests lie between and after |
| `Grants.PasswordGrantAnswers` | internal/bitwarden/identity.go:106-176 | exactly when a login gets which answer; with the second factor on, a grant needs provider 0 and a code valid now, or provider -2 and a device of the user that remembers the text |
| `Grants.GrantedReply` | internal/bitwarden/identity.go:180-224 | a granted login hands out the keys of its account, its own token, and a remember token only after a right code that asks for it |
| `Grants.PasswordGrantRows` | internal/bitwarden/identity.go:106-176 | a login writes devices only, and of them at most the one it names, column by column; a login without a verified master key writes nothing |
| `Grants.RefreshGrantAnswers` | internal/bitwarden/identity.go:226-242 | a refresh is granted exactly for a token held by a device of an active account, when no other device holds the new one; it answers with that account's keys and changes that token only |
| `ClientRequests.MasterPasswordChange` | internal/bitwarden/api.go:964-1010 | exactly when a master-password change is done; hash, key and stamp change together, tokens of the user's devices go, remembered logins stay |
| `ClientRequests.KeysPostedOnce` | internal/bitwarden/api.go:884-912 | exactly when a key pair is stored, and nothing else of the account changes |
| `ClientRequests.StampResetDropsDevices` | internal/bitwarden/api.go:1069-1097 | exactly when a stamp reset is done: the user's devices go, and of the account only the stamp changes |
| `ClientRequests.SecondFactorSetting` | internal/bitwarden/api.go:1178-1275 | exactly when an authenticator is requested, confirmed and turned off, and what becomes of factor and secret |
| `ClientRequests.CipherChange` | internal/bitwarden/api.go:440-646 | exactly when a cipher is created, rewritten or deleted; no other row changes |
| `ClientRequests.PanelPasswordProvisions` | internal/bitwarden/service.go:47-120 | a panel password writes the derived hash, wrapped user key and sealed private key exactly when no client has used the account, and keeps the second factor |
| `ClientRequests.AccountCreation` | internal/admin/admin.go:190-249 | an account is created exactly under a new id and a free address with an "@", active and provisioned |
| `ClientRequests.StatusChange` | internal/admin/users.go:183-240 | a status change touches one column of one row |
| `ClientRequests.UserDeletion` | internal/admin/users.go:264-294 | a deletion takes account, devices and ciphers of that user and nobody else's |
| `RefreshTokens.RedeemedIsNeverAccepted` | internal/bitwarden/identity.go:226-242 | a redeemed token is never accepted again in any run |
| `RefreshTokens.ReplacedIsNeverAccepted` | internal/bitwarden/service.go:255-266 | a token that a later grant replaced on its device is never accepted again |
| `RefreshTokens.LiveExactlyUntilEnded` | internal/bitwarden/service.go:257-291 | over any run a token stays live at its device exactly until that device gets another one, its user revokes or is deleted; after that it is dead |
| `RefreshTokens.EndsExactlyThen` | internal/bitwarden/service.go:257-291 | one request takes a live token away in exactly those cases |
| `RefreshTokens.AcceptedExactlyWhenLive` | internal/bitwarden/identity.go:226-242 | a refresh with a fresh new token is granted if and only if a device of an active account holds the old one |
| `RefreshTokens.GrantInstalls` | internal/bitwarden/identity.go:180-224 | a grant leaves its token at exactly one device, of the user it signed in |
| `RefreshTokens.StepGains` | internal/bitwarden/service.go:223-291 | no request but the grant that issues a token puts its hash on a device |
| `RefreshTokens.TokensStayUnique` | internal/bitwarden/service.go:257-266 | refresh-token hashes stay unique over every request |
| `RefreshTokens.StepValid` | internal/bitwarden/service.go:47-291 | every request keeps foreign keys, unique e-mails and unique token hashes |
| `RememberedDevices.SkipsExactlyUntilEnded` | internal/bitwarden/identity.go:244-290 | after any run, a login of the device's user that offers a remember token skips the second factor exactly when no request renewed it on the device, reset the security stamp or deleted the user |
| `RememberedDevices.RememberedExactlyUntilEnded` | internal/bitwarden/identity.go:244-290 | over any run a device holds a remember token, for the same user, exactly until one of these requests |
| `RememberedDevices.EndsExactlyThen` | internal/bitwarden/identity.go:282-288 | one request takes a remember token away in exactly those cases |
| `RememberedDevices.SettingsKeepRemembered` | internal/bitwarden/api.go:964-1010 | no run of master-password changes, refreshes and second-factor settings, off and on again included, ends it |
| `VaultKeys.VaultStaysReadable` | internal/bitwarden/api.go:685-1010 | if clients re-wrap the same user key at each master-password change, then after any run, bulk imports included, without stamp reset or deletion a current master key still opens the user key and every stored cipher |
| `VaultKeys.LaterLoginOpensVault` | internal/bitwarden/identity.go:106-224 | from one login to any later one of such a run: the reply and the master key alone open every stored cipher |
| `VaultKeys.LoginOpensVault` | internal/bitwarden/identity.go:180-224 | whoever logs in to a readable vault gets its user key from the reply |
| `VaultKeys.PanelNeverTouchesKeys` | internal/bitwarden/service.go:42-71 | once a password grant has succeeded, no panel request changes the account's key material in any run without stamp reset or deletion |
| `VaultKeys.KeysChangeOnlyByOwner` | internal/bitwarden/api.go:884-1010 | of an account in use, hash and user key change only by its own request that proves the old hash, and a private key only when there was none |
| `VaultKeys.OverwritesExactlyWhenUnused` | internal/bitwarden/service.go:53-71 | a panel password leaves the account row as it is if and only if the account has a hash and a device |
| `VaultKeys.PanelPasswordKeepsVaultExactlyWhenInUse` | internal/bitwarden/service.go:42-71 | a panel password leaves a readable vault readable if and only if the account has a device at that moment |
| `VaultKeys.StampThenPanelPasswordLosesVault` | internal/bitwarden/api.go:1091-1092 | after every security-stamp reset a panel password replaces the user key of a vault in use, while its ciphers stay |
| `VaultKeys.VaultIsLost` | internal/bitwarden/api.go:1091-1092 | that run exists from every account in use: its vault is readable, the reset is accepted, and after the panel password it is not readable |
| `CipherString.ForeignKeyDoesNotOpen` | internal/bitwarden/bwcrypto/bwcrypto.go:241-244 | a cipher does not open under a key that authenticates it differently |
| `VaultKeys.HandedOutPasswordLogsIn` | internal/admin/admin.go:190-249 | the password of a new account logs a client in on a new device, and opens the user key and the private key |
| `VaultKeys.ProvisionUnlocks` | internal/bitwarden/service.go:73-119 | provisioning makes the password's master key current for the new user key |
| `VaultKeys.GrantedMeansAuthentic` | internal/bitwarden/identity.go:106-176 | a login is granted only to a master key that matches the hash of an active account, and hands out that account's key |
| `VaultKeys.StaysInUseForever` | internal/bitwarden/service.go:223-241 | an account in use stays so until its devices are dropped or it is deleted |
| `BitwardenService.Service.ProvisionAccount` | internal/bitwarden/service.go:47-120 | writes the key material only when the account is not in use |
| `BitwardenService.Service.CreateAccount` | internal/admin/admin.go:190-249 | adds one active user under the normalised address and provisions it; malformed and taken addresses change nothing |
| `BitwardenService.Service.RegisterDevice` | internal/bitwarden/service.go:223-241 | an existing id keeps its row and its user; another user's id is an error |
| `BitwardenService.Service.SecondFactor` | internal/bitwarden/identity.go:249-290 | prompt, wrong or passed, and the remember token stored only when asked for |
| `BitwardenService.Service.RespondToken` | internal/bitwarden/identity.go:180-187 | replaces the device's token hash, unless another device has that hash |
| `BitwardenService.Service.PasswordGrant` | internal/bitwarden/identity.go:106-176 | only devices can change; a grant follows a proved master key and leaves its token at the device, and the token hashes stay unique |
| `BitwardenService.Service.RefreshGrant` | internal/bitwarden/identity.go:226-242 | a live token of an active account is replaced at its device and held by none afterwards; any other token, and a disabled account, change nothing |
| `BitwardenService.Service.ChangeMasterPassword` | internal/bitwarden/api.go:964-1010 | with the old hash and non-empty new values, hash, key and stamp change together and every token of the user is cleared; else nothing changes |
| `BitwardenService.Service.PostKeys` | internal/bitwarden/api.go:884-912 | a key pair is stored only where there is none; rows of other users stay |
| `BitwardenService.Service.SecurityStamp` | internal/bitwarden/api.go:1069-1097 | with the right hash, a new stamp and no device of the user left; keys, ciphers and rows of other users stay |
| `BitwardenService.Service.ImportCiphers` | internal/bitwarden/api.go:729-738 | the loop adds the ciphers before the first bad one under the caller and touches nobody else's rows |
| `BitwardenWorld.RealWorldIsLawful` | internal/bitwarden/bwcrypto/bwcrypto.go:107-306 | the modelled padding, CBC, MAC, printed strings, key wrapping and hash satisfy every law of a lawful world, given a derivation of 32-byte keys |
| `BitwardenWorld.SampleHasNoCollisions` | internal/bitwarden/bwcrypto/bwcrypto.go:107-158 | such a world exists in which no master key collides with another, so the assumption of the login and panel-password results can be met |
| `BitwardenWorld.SampleVaultIsLost` | internal/bitwarden/api.go:1091-1092 | in that world the run that loses a vault exists for every account, password and drawn key material |
| `BitwardenItems.RunKeeps` | internal/bitwarden/api.go:440-824 | over any run a cipher's folder is one of the cipher's own user, and a user who does not call keeps every row |
| `BitwardenItems.StepKeeps` | internal/bitwarden/service.go:328-553 | one request keeps that and changes rows of its own user only |
| `ItemEffects.FolderWritten` | internal/bitwarden/service.go:328-350 | a folder is made under a new id and renamed by its user only |
| `ItemEffects.FolderDeleted` | internal/bitwarden/service.go:352-363 | exactly the user's folder goes; its ciphers stay, without a folder and otherwise unchanged |
| `ItemEffects.CipherWritten` | internal/bitwarden/api.go:440-535 | a cipher is written exactly with data and a folder of its user; a rewritten one stays in the trash or out of it |
| `ItemEffects.CipherTrashed` | internal/bitwarden/service.go:495-513 | one column of one cipher of the user |
| `ItemEffects.CiphersRemoved` | internal/bitwarden/service.go:526-553 | exactly the user's ciphers that are listed, or in the trash, are gone |
| `ItemEffects.CiphersRestored` | internal/bitwarden/service.go:536-545 | exactly the user's listed ciphers leave the trash |
| `ItemEffects.FoldersResolved` | internal/bitwarden/api.go:706-720 | every folder of an import stands for the user's folder it names, else for a new one of its name, in order, and nothing else is made |
| `ItemEffects.ImportOutcome` | internal/bitwarden/api.go:685-739 | folders, relations and ciphers together: the missing folders are made, and exactly the ciphers before the first that lacks data or names a folder not the user's are added, each in the folder of its last relation or the one it asks for |
| `BitwardenItems.ImportAddsUpToFirstBad` | internal/bitwarden/api.go:729-737 | an import adds exactly the ciphers before the first bad one, each in the folder of its last relation or else the one it asked for; nothing is rolled back |
| `BitwardenItems.ImportSucceedsExactlyWhenAllGood` | internal/bitwarden/api.go:729-737 | its cipher part succeeds if and only if no cipher is bad |
| `BitwardenItems.ImportIsRequest` | internal/bitwarden/api.go:685-739 | folders, relations and all, an import does to the cipher rows what the import request of the readable-vault runs does |
| `BitwardenItems.RelatedNeedsOnlyData` | internal/bitwarden/api.go:722-737 | a cipher with a folder relation can only fail for missing data |
| `BitwardenItems.FolderForIsLast` | internal/bitwarden/api.go:722-727 | the folder map holds the last relation of a key that points at a folder |
| `BitwardenItems.FolderForOnlyRelated` | internal/bitwarden/api.go:722-727 | and nothing for a key without one |
| `BitwardenItems.Service.ImportCiphers` | internal/bitwarden/api.go:685-739 | the three loops over folders, relations and ciphers do what the model says |
| `BitwardenItems.Service.DeleteCiphers` | internal/bitwarden/service.go:526-534 | the loop deletes exactly the user's listed ciphers |
| `BitwardenItems.Service.RestoreCiphers` | internal/bitwarden/service.go:536-545 | the loop restores exactly the user's listed ciphers |
| `BitwardenItems.Service.DeleteFolder` | internal/bitwarden/service.go:352-363 | only the user's folder, and its ciphers lose their folder |
| `BitwardenItems.Service.CreateCipher` | internal/bitwarden/api.go:458-480 | a missing sub-object or a folder of somebody else is refused |
| `AccountRuns.AlwaysAnActiveAdmin` | internal/admin/admin.go:103-124 | from Bootstrap on, after any serial run of requests there is an active admin |
| `AccountRuns.StepKeepsActiveAdmin` | internal/admin/users.go:139-294 | one request keeps an active admin: the acting one stays |
| `AccountRuns.LastAdminNeverRefuses` | internal/admin/users.go:296-309 | one request at a time the last-admin check never refuses anything |
| `AccountRuns.NoEarlierSessionSurvives` | internal/admin/users.go:241-245 | once an account is disabled, reset, deleted or recovered, no session created before is ever accepted again, enabling included, in any run |
| `AccountRuns.LiveExactlyUntilEnded` | internal/admin/admin.go:596-633 | over any run a session lives exactly until its user's sessions are dropped, its cookie logs out or its cookie is refused |
| `AccountRuns.EndsExactlyThen` | internal/admin/admin.go:596-633 | one request ends a session in exactly those cases |
| `AccountRuns.AcceptedExactlyWhenLive` | internal/admin/admin.go:596-633 | a cookie is accepted if and only if an unexpired session of an active user has its hash |
| `AccountRuns.StepGains` | internal/admin/admin.go:335-349 | only the login or recovery that mints a token adds a session with its hash |
| `AccountRuns.StepValid` | internal/admin/admin.go:190-633 | every request keeps the foreign key, unique e-mails and unique session hashes |
| `PanelRequests.NobodyAsking` | internal/admin/admin.go:596-633 | a request is unauthorized exactly when its cookie has no session in force, up to and including its expiry, of an active user; stale sessions of the cookie go, and no others |
| `PanelRequests.LoginAnswers` | internal/admin/admin.go:369-410 | exactly the active user of the address whose password verifies signs in, with one session for the configured time; only an outdated hash changes |
| `PanelRequests.VisitAndLogout` | internal/admin/admin.go:412-440 | a visit writes nothing; a logout ends the cookie's session and no other |
| `PanelRequests.PasswordChange` | internal/admin/admin.go:442-471 | the own password changes exactly for the right current one and six bytes of new one; sessions stay |
| `PanelRequests.RecoveryAnswers` | internal/admin/admin.go:521-567 | exactly when a recovery is refused and how; else password and recovery key change together and the user is left one session |
| `PanelRequests.CommandLineReset` | internal/admin/admin.go:130-159 | the eldest admin gets the configured password and is signed out; without an admin nothing happens |
| `PanelRequests.OnlyAdminsManage` | internal/admin/users.go:38-47 | whoever is no admin is refused and changes nothing |
| `PanelRequests.UserCreation` | internal/admin/users.go:76-120 | exactly when an account is created, and its row |
| `PanelRequests.FirstStart` | internal/admin/admin.go:103-124 | the first start makes the configured admin, any other nothing |
| `PanelRequests.UserEdit` | internal/admin/users.go:142-262 | what is refused in which order, and every column an accepted edit changes; disabling and resetting sign the user out |
| `PanelRequests.UserRemoval` | internal/admin/users.go:264-294 | another account goes with its sessions; the own one and a missing one are refused |
| `Credentials.NormalForms` | internal/admin/admin.go:316-333 | exactly which spellings normalise to a key body; "OP" alone before a body that begins with "REC" does not |
| `Credentials.PrintedKeyNormalizes` | internal/admin/admin.go:316-333 | a key is accepted as printed, in small letters, with blanks around it and without its separators |
| `Credentials.UsedRecoveryKeyIsSpent` | internal/admin/admin.go:548-552 | after a recovery the used key matches only if it spells the new one |
| `Credentials.LoginAfterRecovery` | internal/admin/admin.go:569-592 | after a recovery exactly the trimmed new password logs in, so the typed one does if and only if it had no outer blanks |
| `AccountService.Service.Require` | internal/admin/admin.go:596-633 | as the model: an expired session, or one of a disabled user, is deleted on sight |
| `AccountService.Service.EnsureAnotherAdminExists` | internal/admin/users.go:296-309 | the count is positive exactly when another active admin exists |
| `AccountService.Service.CreateSession` | internal/admin/admin.go:335-349 | adds one session, or none on a used id or hash |
| `AccountService.Service.Login` | internal/admin/admin.go:369-410 | signs in exactly an active user whose password verifies, upgrading an outdated hash; every refusal changes nothing |
| `AccountService.Service.Logout` | internal/admin/admin.go:412-426 | ends the session of an accepted cookie, and no other; afterwards no session has its hash |
| `AccountService.Service.ChangePassword` | internal/admin/admin.go:442-471 | a signed-in user who knows the current password gets the trimmed new one; no session ends |
| `AccountService.Service.RecoverPassword` | internal/admin/admin.go:521-567 | with the right key: new password, new recovery key, old sessions gone, one new session; a refusal changes nothing |
| `AccountService.Service.CreateAccount` | internal/admin/admin.go:190-234 | one active row under the normalised address, with a recovery key; malformed and taken addresses change nothing |
| `AccountService.Service.Bootstrap` | internal/admin/admin.go:103-124 | creates the first admin only when there is no user |
| `AccountService.Service.CreateUser` | internal/admin/users.go:76-120 | only an admin adds an account, with a known role and a password of six or more bytes |
| `AccountService.Service.UpdateUser` | internal/admin/users.go:142-262 | own role, status and password, the last admin, unknown values and empty edits are refused in this order and change nothing |
| `AccountService.Service.ApplyEdit` | internal/admin/users.go:193-245 | the growing column list: an empty one is an error, disabling or resetting drops the sessions |
| `AccountService.Service.DeleteUser` | internal/admin/users.go:264-294 | an admin removes another account with its sessions, never the own one; the other accounts stay, and so does an active admin |

## Left out

- HTTP, JSON, CSV and URL decoding, cookies, logging, static files and the browser extension: parsed requests,
  rows and host strings are inputs.
- AES, GCM, HMAC, SHA-256, Argon2, HKDF, RSA, JWT signing and the password hash formats: functions with the
  laws named above.
- PostgreSQL beyond keys, cascades and transactions; statements fail only on a constraint. Rows of equal
  timestamps are ordered by id, which the database leaves open.
- Concurrent requests: the administration, import and token results are about one request after another, and the
  limiter's about calls that reach its list in the order of their clock readings, which apikeys.go:500-503 takes
  before the lock.
- Unicode: letter case is folded for ASCII letters only.
- Backup columns that no key mentions are one opaque value per row, and rows carry every column, so the
  column filter of `insertRow` is not modelled.
- KeyLookup.Service.Create: does not model that a prefix cut inside a character is refused by PostgreSQL as
  text, because prefixes are byte strings here; key suffixes, which nothing reads, are not modelled.
- Limiter.Limiter.Allow: does not model that pruned and later slices of one key share a backing array, because
  no other reference to that array exists; each list is a value.
- Totp.WindowIsExact: for 10 digits, which the parser admits, its codes and those of `Totp.CodeAt` and
  `Totp.PrintedCode` are reduced by the exact power of ten, because what the conversion of 10^10 to 32 bits gives is
  up to the platform; negative times are left out.
- Totp.CodeMeans: for 10 digits it is reduced by the exact power of ten as well.
- Device names, types and push tokens, revision dates, equivalent domains and other account columns that no
  property depends on.
- The stale-write check of cipher updates, favorites, reprompt flags and other columns of a cipher; encrypted
  columns other than one representative text.
- Setting a TOTP secret on a vault entry, the password and key-description routes of API keys (they touch no
  rows), password hints, `Passphrase` and `Strength` of the generator, key listing and revocation, audit rows of API
  calls, CIDR matching, the SQLite migration and configuration loading.
- Failures of the random source, of encryption and of the database other than constraint violations.
- Regenerating a recovery key from a signed-in session, which is the same update as in a recovery.
