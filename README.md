# MutableBytes, modelled in Dafny

`MutableBytes` (package `at.favre.lib.bytes` of bytes-java) is the mutable
flavour of the library's `Bytes` wrapper. It is a fixed-length byte buffer
that owns one `byte[]`, the one `internalArray()` returns. Its mutators write
into that array in place and return the same instance, so calls can be
chained:

- `overwrite(newArray, offset)` copies a whole array into the buffer from `offset` on;
- `overwrite(newArray)` does the same from offset 0;
- `fill(b)` sets every byte to `b`;
- `wipe()` is `fill(0)`;
- `secureWipe(random)` has a `SecureRandom` fill the buffer;
- `secureWipe()` does the same with a new `SecureRandom`.

The project has three files:

- `wrappers.dfy`: `Option` (a Java reference that may be null) and `Result`
  (a method's return value, or the exception it throws).
- `byte_ops.dfy`, module `ByteOps`: the buffer's contents as a `seq<bv8>` and
  what each mutator does to them. Each mutator is a function that returns an
  `Outcome`: the new contents and the exception thrown, if any. `Op`, `Step`
  and `Run` describe a chain of calls on one instance. The lemmas are about
  such chains.
- `mutable_bytes.dfy`, module `MutableBuffer`: the class `MutableBytes`, with
  the backing array as a `const data: array<bv8>` field. It also holds a
  stand-in class `SecureRandom` and two client methods. The client methods
  walk through chaining and the worked examples (`[1,2,3,4]` overwritten at 1
  by `[AA,BB]`, `fill(FF)`, `wipe()`); they carry no contract.

Each class method has `modifies data`, or `modifies data, random` for
`secureWipe(random)`. Its `ensures` give the new `data[..]` as the matching
`ByteOps` function of the old contents. They also state the returned value:
`Success(this)`, or `Failure(e)` for the exception `e` thrown. Because `data`
is a `const` field, no mutator can replace the array; a Dafny array's length
is fixed. So the promises that the instance is returned, the array is the
same and the length is the same are carried by the types and the frames.

Java's overloads get distinct names in Dafny:

- `overwrite(byte[])` is `Overwrite`; `overwrite(byte[], int)` is `OverwriteAt`;
- `secureWipe()` is `SecureWipe`; `secureWipe(SecureRandom)` is `SecureWipeWith`.

A bounds failure in `overwrite` does not leave a partly written buffer.
`System.arraycopy` checks the whole range before it writes any byte, so the
model's `overwrite` is all-or-nothing (`AfterOverwrite`, `Step`).

A second point about `System.arraycopy`: it copies as if through a temporary
array, so the source may be the buffer's own array. `OverwriteAt` reads the
source into a sequence before it writes. `OverwriteWithOwnBytes` shows that
overwriting a range with the bytes it already holds changes nothing.

## Model

| member | source | states |
|---|---|---|
| `ByteOps.Overwritten` | src/main/java/at/favre/lib/bytes/MutableBytes.java:60-64 | the copy leaves the length alone, puts `src[i]` at `off + i` for every i, and keeps every byte outside `[off, off + |src|)` |
| `ByteOps.AfterOverwrite` | src/main/java/at/favre/lib/bytes/MutableBytes.java:52-64 | overwrite succeeds exactly when the source is non-null and `0 <= off && off + |src| <= length`; a null source throws NullPointer with the source's message; a range that does not fit throws IndexOutOfBounds; every failure leaves the buffer unchanged; a success writes exactly the target range |
| `ByteOps.AfterFill` | src/main/java/at/favre/lib/bytes/MutableBytes.java:76-85 | fill never throws, keeps the length and makes every byte equal to the fill byte |
| `ByteOps.AfterWipe` | src/main/java/at/favre/lib/bytes/MutableBytes.java:66-74 | wipe never throws, keeps the length and makes every byte 0 |
| `ByteOps.AfterSecureWipe` | src/main/java/at/favre/lib/bytes/MutableBytes.java:97-107 | secureWipe throws NullPointer with the source's message exactly when the generator is null, and then changes nothing; otherwise byte i becomes the generator's i-th next output; the length is kept |
| `ByteOps.Step` | src/main/java/at/favre/lib/bytes/MutableBytes.java:47-107 | every mutator keeps the length, and one that throws leaves the buffer as it was |
| `ByteOps.RunKeepsLength` | src/main/java/at/favre/lib/bytes/MutableBytes.java:29-34 | no chain of mutator calls, of any length, changes the buffer's length |
| `ByteOps.RunAppend` | src/main/java/at/favre/lib/bytes/MutableBytes.java:60-64 | because each mutator returns the instance, a chain split in two runs its second part on what the first part left, unless the first part threw |
| `ByteOps.WipeIsFillZero` | src/main/java/at/favre/lib/bytes/MutableBytes.java:71-74 | `wipe()` may replace `fill(0)`, and the reverse, anywhere in a chain, with the same outcome |
| `ByteOps.FillIdempotent` | src/main/java/at/favre/lib/bytes/MutableBytes.java:82-85 | `fill(b).fill(b)` has the same outcome as `fill(b)`, anywhere in a chain |
| `ByteOps.WipeLeavesZeros` | src/main/java/at/favre/lib/bytes/MutableBytes.java:66-74 | a chain that reaches a final `wipe()` leaves only zeros, whatever the calls before it wrote |
| `ByteOps.StopsAtFirstThrow` | src/main/java/at/favre/lib/bytes/MutableBytes.java:58-62 | a chain whose next call throws ends with that call's exception, and the buffer is as the earlier calls left it |
| `ByteOps.OverwriteFromStart` | src/main/java/at/favre/lib/bytes/MutableBytes.java:40-50 | `overwrite(a)` replaces the prefix of length `|a|` and keeps the rest when `|a| <= length`, and throws IndexOutOfBounds with the buffer unchanged otherwise |
| `ByteOps.OverwriteWithOwnBytes` | src/main/java/at/favre/lib/bytes/MutableBytes.java:60-62 | overwriting a range with the bytes it already holds succeeds and changes nothing; this covers `overwrite(internalArray())` |
| `ByteOps.OverwriteLastWins` | src/main/java/at/favre/lib/bytes/MutableBytes.java:60-64 | of two overwrites of the same range, only the second shows, and the pair fails exactly when one overwrite would; so overwriting twice with the same array is overwriting once |
| `ByteOps.SecureWipeForgets` | src/main/java/at/favre/lib/bytes/MutableBytes.java:97-107 | what secureWipe leaves depends only on the buffer's length and the generator, not on the old contents |
| `MutableBuffer.SecureRandom.NextBytes` | src/main/java/at/favre/lib/bytes/MutableBytes.java:105 | the generator fills the whole array it is given with its next `length` bytes and moves past them |
| `MutableBuffer.MutableBytes.constructor` | src/main/java/at/favre/lib/bytes/MutableBytes.java:36-38 | the instance wraps the given array itself, without copying it, and keeps the byte order tag |
| `MutableBuffer.MutableBytes.OverwriteAt` | src/main/java/at/favre/lib/bytes/MutableBytes.java:52-64 | the backing array's new contents and the returned instance or exception are those of `AfterOverwrite` on the old contents; only the backing array is written |
| `MutableBuffer.MutableBytes.Overwrite` | src/main/java/at/favre/lib/bytes/MutableBytes.java:40-50 | behaves as `OverwriteAt(newArray, 0)`; when the source fits, it returns this instance and the buffer becomes the source followed by the old bytes past it |
| `MutableBuffer.MutableBytes.Fill` | src/main/java/at/favre/lib/bytes/MutableBytes.java:76-85 | returns this instance, and the backing array is `AfterFill` of its old contents |
| `MutableBuffer.MutableBytes.Wipe` | src/main/java/at/favre/lib/bytes/MutableBytes.java:66-74 | returns this instance, and the backing array is `AfterWipe` of its old contents, all zeros |
| `MutableBuffer.MutableBytes.SecureWipeWith` | src/main/java/at/favre/lib/bytes/MutableBytes.java:97-107 | a null generator gives NullPointer and an unchanged buffer; otherwise the backing array becomes the generator's next output, the generator moves past it, and this instance is returned |
| `MutableBuffer.MutableBytes.SecureWipe` | src/main/java/at/favre/lib/bytes/MutableBytes.java:87-95 | with a fresh generator whose output is `entropy`, returns this instance, and the backing array is `entropy`'s first `length` bytes |

## Left out

- The entropy of `SecureRandom`: its output is an arbitrary stream (`ByteStream`). The model does not say how random that stream is. `secureWipe()` takes the new generator's stream as a parameter.
- The `Bytes` superclass: the model does not include the superclass constructor's other flags or any of its other behaviour. It keeps only the backing array and the byte order tag. The constructor therefore takes a non-null array; the superclass's handling of a null array is not part of this model.
- Whether zeroing really reaches memory (dead-store elimination, copies made by the runtime) is a runtime concern and cannot be expressed here.
- Use from several threads: the class has no synchronisation, and the model is sequential.
- `MutableBuffer.MutableBytes.OverwriteAt`: the offset is an unbounded `int`, not a 32-bit Java `int`. The range check of `System.arraycopy` cannot overflow for any offset and length that a Java `int` can hold, so no Java call behaves differently.
- `ByteOps.AfterOverwrite`: the range failure is the one `IndexOutOfBounds` error. The concrete subclass `System.arraycopy` throws (`ArrayIndexOutOfBoundsException`) and its message text are not modelled.
