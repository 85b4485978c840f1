# frontd: backend-address cache and token resolution

frontd is a TCP tunnel endpoint. A client's first line names the backend to
reach, as base64 text of `IV || AES-CFB(secret, IV, address || salt)`. The
server turns that line into an address, dials it and relays bytes both ways.
This project models the two sequential pieces of `main.go`.

- **The backend-address cache** (module `AddrCache`, class `BackendAddrCache`).
  It is a map from wire token to address that starts empty. A write never
  changes the published map. It builds a new one instead: a copy of every
  entry plus the new one while the map holds fewer than `Max` entries, and
  only the new entry once it holds `Max` or more (a bulk flush). The process
  uses `Max = MaxBackendAddrCacheCount = 1024 * 1024`. A read is a lookup in
  the published map.
- **Token resolution** (module `AddressCodec`, and `BackendAddrCache.Resolve`).
  This is the read-through step of the per-connection handler. On a cache hit
  it uses the cached address. On a miss it base64-decodes the line, creates the
  AES cipher, rejects a payload shorter than one 16-byte block, splits off the
  IV, decrypts the rest, rejects text that is shorter than the salt or does not
  end with it, and strips the salt. Only then does it write the address into
  the cache.

Go strings are byte strings, so tokens and addresses are `seq<byte>`
(`Common.Bytes`). The library primitives are fields of the `Codec` datatype,
next to the shared secret and the salt:

- `base64Decode: Bytes -> Option<Bytes>` stands for `base64.StdEncoding.DecodeString`;
- `decrypt(key, iv, ciphertext)` stands for `cipher.NewCFBDecrypter(...).XORKeyStream`.

Both are uninterpreted. The source decrypts in place, so decryption keeps the
length. The model states that as the hypothesis `Codec.LengthPreserving()`,
and only the address-length lemmas need it. `aes.NewCipher` fails unless the
secret is 16, 24 or 32 bytes long; the model reports that as `Error.KeySize`,
at the same place in the order of checks. Each `log.Panicln` of the resolve
step becomes an `Err` result.

The flush test uses the size before the insert, with `<` (main.go:57), so a
copy is made only below `Max` entries and the cache never holds more than
`Max` entries (`CowInsert`, `ApplyWritesBounded`, `BackendAddrCache.Valid`).

## Model

| member | source | states |
|---|---|---|
| `AddrCache.BackendAddrCache.constructor` | main.go:38-40 | the cache starts empty, with flush threshold `Max >= 1` |
| `AddrCache.InitCache` | main.go:24-40 | the process-wide cache starts empty with `Max = MaxBackendAddrCacheCount = 1024 * 1024`, which meets the constructor's `1 <= max` |
| `AddrCache.BackendAddrCache.Read` | main.go:42-47 | returns `(v, true)` exactly when the snapshot maps the key to `v`, and `("", false)` otherwise; it changes nothing |
| `AddrCache.BackendAddrCache.Write` | main.go:49-66 | the copy loop builds exactly the published map `CowInsert(old snapshot, Max, key, val)`; the size bound `Valid()` is preserved |
| `AddrCache.CowInsert` | main.go:53-65 | the written key maps to the written value; below `Max` entries every other key keeps its value and no key is added or removed; at `Max` or more the only key is the written one; the size never exceeds `Max` |
| `AddrCache.ApplyWritesBounded` | main.go:57-64 | any sequence of writes to a map holding at most `Max >= 1` entries leaves at most `Max` entries |
| `AddrCache.WritesFromEmptyBounded` | main.go:38-65 | starting from the empty cache, no sequence of writes makes it exceed `Max` entries |
| `AddrCache.LastWriteWins` | main.go:64-65 | after any sequence of writes ending in `key := val`, a read of `key` sees `val` |
| `AddrCache.BackendAddrCache.Resolve` | main.go:111-148 | on a hit: the cached address, cache unchanged; on a miss: exactly the result of `Decode`, and on success the cache becomes the copy-on-write insert of `line := addr`; on any failure the cache is unchanged |
| `AddrCache.ResolveTwice` | main.go:111-148 | after a successful resolution, resolving the same line again gives the same address with any codec at all (the codec is not consulted) and leaves the cache as the first call left it |
| `AddrCache.RejectedThenResolved` | main.go:93-148 | a line that fails to resolve has no effect on how the next line resolves |
| `AddressCodec.Decode` | main.go:115-144 | an address is produced exactly when base64 decoding succeeds, the key size is valid, the payload holds a 16-byte IV and the decrypted text ends with the salt; the address followed by the salt is the decrypted text; otherwise the first failing check is the error reported |
| `AddressCodec.DecodeAddress` | main.go:129-144 | a line decodes to `addr` if and only if its decrypted text is `addr` followed by the salt |
| `AddressCodec.DecodeLength` | main.go:129-144 | with length-preserving decryption, the address length is the payload length minus 16 minus the salt length |
| `AddressCodec.SingleBlockPayload` | main.go:126-144 | a payload of exactly 16 bytes passes the length check; it yields the empty address for an empty salt and the salt-length failure otherwise |
| `AddressCodec.DecodeToken` | main.go:115-144 | a line carrying `IV || ciphertext`, where the ciphertext decrypts to `addr || salt`, resolves to `addr` (the round trip with the token producer) |

## Left out

- The byte relay `pipe`, its goroutines and the `sync.WaitGroup` (main.go:68-79, 159-164) are not modelled. They are concurrent I/O through `io.Copy`. The `wg.Add(1)` inside the spawned goroutine is a race that a sequential model cannot show.
- The mutex and the atomic snapshot holder (main.go:34-35, 50-51, 65) are not modelled. Each read and each write is one atomic step; lock-free reader consistency is a concurrency property.
- Accepting connections, reading the header line with `bufio` (including the rejection of an over-long line through `isPrefix`) and dialing the backend (main.go:82-109, 150-156) are network I/O and are not modelled.
- Base64 decoding is left uninterpreted (`Codec.base64Decode`). It is a library call.
- AES-CFB decryption and the AES block cipher are left uninterpreted (`Codec.decrypt`). They are library cryptography. Only the key-size check of `aes.NewCipher` is modelled.
- `main` (main.go:172-193) is not modelled. It raises the file-descriptor limit, reads `SALT` and `SECRET` from the environment and binds the listener. The secret and the salt become fields of `Codec`.
- Logging, `panic`/`recover` and the unconditional `log.Panicln` after the relay (main.go:166) are not modelled. The failures of the resolve step are `Err` results instead.
- `AddressCodec.DecodeLength`, `AddressCodec.SingleBlockPayload`: they assume `Codec.LengthPreserving()`, because the uninterpreted `decrypt` does not by itself keep the length that the in-place decryption of the source keeps.
