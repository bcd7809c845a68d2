# Batch upload to the GitHub contents API, modelled in Dafny

This project models the batch upload script `mcp/app/infrastructure/github/post.py`.

- `subir_archivos_github` takes a list of file dicts (`path`, `content`, optional `encoding`). For each file it:
  - base64-encodes the content, unless the file is tagged `base64`;
  - issues a GET on the file's contents URL, and adds the returned `sha` to the payload when that GET answers 200;
  - issues a PUT with the payload;
  - files the outcome under `resultados` (PUT answered 200 or 201) or under `errores` (any other status, or any exception).
  It returns a summary dict with the two lists, their sizes and `success`.
- `preparar_archivos_desde_directorio` turns the regular files of a directory walk into such dicts. It builds the repository path from the remote prefix and the relative path, with `/` separators, and tags every dict `utf-8`.

Modules:

- `Upload` (upload.dfy) models `subir_archivos_github`.
  - `UploadFiles` is the loop. It keeps the same `try`/`except` structure, written as a labelled block left with `break`.
  - It is proved against the specification functions `TryUpload` (one iteration) and `Summarize` (the summary dict).
  - The network is a script: `replies[i]` says what the GET and the PUT of the i-th file answer, or that they raise. The requests issued are returned as a log.
- `Prepare` (prepare.dfy) models `preparar_archivos_desde_directorio`. The walk is an input: a sequence of entries, each with a relative path, an is-file flag and the text read from it.
- `Base64` (base64.dfy) is the encoding of section 4 of RFC 4648 that `base64.b64encode` implements. It comes with a strict decoder and round-trip proofs in both directions.
- `Utf8` (utf8.dfy) is the UTF-8 codec of RFC 3629, with a strict decoder and a round-trip proof. Together with `Base64` it proves that a file read from disk reaches the API as base 64 text that decodes back to the file's text.
- `Seqs` (seqs.dfy) holds the order-keeping filter that both the result lists and the walk's regular files use.
- `Wrappers` (wrappers.dfy) holds `Option` and the `Byte` type.

Three behaviours the docstring of `subir_archivos_github` does not mention are modelled as the code has them:
- The base 64 tag is compared after `lower()`, so `BASE64` and `Base64` also pass the content through unchanged.
- A dict without a `path` key is reported under the path `desconocido`.
- A PUT answer whose body is not JSON becomes an exception entry, not an error entry.

## Model

| member | source | states |
|---|---|---|
| `Upload.UploadFiles` | mcp/app/infrastructure/github/post.py:6-90 | The summary and the request log are those of the per-file specification. `success` holds exactly when `errores` is empty. Each total is the size of its list. The two totals add up to the number of files. An empty batch gives success with no entries and no requests. |
| `Upload.SelectSizes` | mcp/app/infrastructure/github/post.py:84-90 | `total_subidos + total_errores` equals the number of files. |
| `Upload.SelectPartition` | mcp/app/infrastructure/github/post.py:63-82 | `resultados` and `errores` together hold exactly the entries of the batch, counted with multiplicity. |
| `Upload.SelectKind` | mcp/app/infrastructure/github/post.py:63-82 | `resultados` holds only successful uploads. `errores` holds only errors and exceptions. |
| `Upload.SelectInInputOrder` | mcp/app/infrastructure/github/post.py:34-82 | Each list keeps input order. Its j-th entry is the entry of an input file at a strictly increasing position, and every file of that kind appears in it. |
| `Upload.SuccessIffAllUploaded` | mcp/app/infrastructure/github/post.py:85 | `success` holds exactly when every file was uploaded. |
| `Upload.EveryFileAttempted` | mcp/app/infrastructure/github/post.py:34-82 | Whatever happened to earlier files, file i gets the entry its own dict and reply determine. That entry is in the list of its kind, and file i's requests come between those of the files before and after it. |
| `Upload.AttemptRequests` | mcp/app/infrastructure/github/post.py:36-61 | No request is sent until the content is encoded. Then comes the GET on `base_url + path`. The PUT on the same URL follows unless the GET raised, or answered 200 without a readable sha. |
| `Upload.PutPayload` | mcp/app/infrastructure/github/post.py:46-57 | The PUT payload has `message`, `content` and `branch` with the given values. It has `sha` exactly when the GET answered 200, and then it is the sha that GET returned. No other key is present. |
| `Upload.AttemptClassification` | mcp/app/infrastructure/github/post.py:63-82 | A 200/201 PUT with a JSON body gives a `success` entry with that body. Any other status with a JSON body gives an `error` entry with that status and body. Everything else gives an `exception` entry. The entry path is the file's `path`, or `desconocido` when there is none. |
| `Upload.EncodeContentRoundTrip` | mcp/app/infrastructure/github/post.py:38-44 | Under a base 64 tag the content passes unchanged. Otherwise the result is base 64 text that decodes to the octets the codec produced, and there is no result when the codec raises. |
| `Upload.Base64TagIgnoresCase` | mcp/app/infrastructure/github/post.py:41 | A tag counts as base 64 exactly when it has six characters, each the matching letter or digit of `base64` in either case. |
| `Upload.Lower` | mcp/app/infrastructure/github/post.py:41 | Lowercasing keeps the length, maps `A`-`Z` to `a`-`z` and leaves every other character alone. |
| `Base64.DecodeEncode` | mcp/app/infrastructure/github/post.py:44 | Base 64 decoding of the `b64encode` output gives back the encoded octets. |
| `Base64.EncodeDecode` | mcp/app/infrastructure/github/post.py:44 | Any text the strict decoder accepts is the encoding of the octets it decodes to. So decoding is injective, and the round trip pins down the encoder. |
| `Base64.PadBitsChecked` | mcp/app/infrastructure/github/post.py:44 | `TR==`, whose pad bits are not zero, is refused. |
| `Utf8.DecodeEncode` | mcp/app/infrastructure/github/post.py:44 | UTF-8 decoding of a string's UTF-8 encoding gives back the string. |
| `Prepare.PrepareFromDirectory` | mcp/app/infrastructure/github/post.py:94-124 | There is a result exactly when every regular file of the walk can be read. The result is one dict per regular file, in walk order. |
| `Prepare.RequestsMatchRegularFiles` | mcp/app/infrastructure/github/post.py:108-122 | The j-th dict belongs to the j-th regular file. It has that file's remote path and text, and the tag `utf-8`. The number of dicts equals the number of regular files. |
| `Prepare.RegularFilesOnly` | mcp/app/infrastructure/github/post.py:108-109 | The entries kept are exactly the walked entries that are regular files. Directories are dropped. |
| `Prepare.RegularFilesInWalkOrder` | mcp/app/infrastructure/github/post.py:108-109 | The kept entries are the regular files with multiplicity and in walk order. The j-th kept entry is the walked entry at position j of a strictly increasing list of positions, and every position holding a regular file is in that list. |
| `Prepare.ToForwardSlashes` | mcp/app/infrastructure/github/post.py:119 | The length is kept. Every backslash becomes a slash and every other character stays in place. |
| `Prepare.ForwardSlashesOnly` | mcp/app/infrastructure/github/post.py:119 | No backslash is left. A path without backslashes is unchanged. |
| `Prepare.RemotePathShape` | mcp/app/infrastructure/github/post.py:112-119 | With a non-empty prefix the remote path is `prefix/rel`, otherwise it is `rel`. Each part is normalised to slashes and no backslash remains. For inputs without backslashes it is the plain join. |
| `Prepare.ForwardSlashesExample` | mcp/app/infrastructure/github/post.py:119 | The Windows-style path `sub\b.txt` becomes `sub/b.txt`. |
| `Prepare.RemotePathExample` | mcp/app/infrastructure/github/post.py:112-119 | Under the prefix `mcp`, `a.txt` becomes `mcp/a.txt` and `sub\b.txt` becomes `mcp/sub/b.txt`. |
| `Base64.EncodeExampleMan` | mcp/app/infrastructure/github/post.py:44 | The octets of `Man` encode to `TWFu`. |
| `Base64.EncodeExamplesPadded` | mcp/app/infrastructure/github/post.py:44 | The octets of `Ma` and `M` encode to `TWE=` and `TQ==`, with the padding of section 4 of RFC 4648. |
| `Base64.RfcVectorsShort` | mcp/app/infrastructure/github/post.py:44 | The test vectors of section 10 of RFC 4648: the empty string, `f`, `fo` and `foo` encode to the empty text, `Zg==`, `Zm8=` and `Zm9v`. |
| `Base64.RfcVectorsLong` | mcp/app/infrastructure/github/post.py:44 | The test vectors of section 10 of RFC 4648: `foob`, `fooba` and `foobar` encode to `Zm9vYg==`, `Zm9vYmE=` and `Zm9vYmFy`. |
| `Seqs.FilterMembers` | mcp/app/infrastructure/github/post.py:108-109 | The kept elements are exactly the elements that satisfy the test. |
| `Seqs.FilterInOrder` | mcp/app/infrastructure/github/post.py:63-82 | Every element that satisfies the test is kept once, in input order. The j-th kept element sits at position j of a strictly increasing list of positions, and that list holds every position whose element satisfies the test. |
| `Prepare.DirectoryUploadRoundTrip` | mcp/app/infrastructure/github/post.py:38-57 | A dict produced by the directory helper always reaches the GET. If a PUT is sent, its `content` decodes (base 64, then UTF-8) to the file's text. |

## Left out

- HTTP: `requests.get`, `requests.put` and `response.json()` are replaced by a per-file scripted `Reply`. Headers and the token (used only in the `Authorization` header) are not modelled. Neither are transport details or the text of `str(e)`, which is modelled as a `Fault` naming the step that raised.
- Filesystem: `Path.rglob`, `is_file`, `relative_to` and `open(...).read()` are replaced by the input walk. Walk order is whatever the input gives. A read that raises is an entry whose text is None, and the helper then has no result.
- Text-mode reading: `open(item, 'r')` translates line endings, so CRLF and CR arrive as LF. A walk entry's text is the translated result of `read()`, and the round trip holds for that text, not for the file's raw bytes.
- `pathlib` normalisation is not modelled. The model joins with a single `/`, while `pathlib` also drops `.` segments, trailing separators and repeated separators.
- Text codecs: `content.encode(encoding)` is the parameter `encodeText`. Only UTF-8 is implemented, and codec-name lookup is not modelled.
- Upload.Lower: handles `A`-`Z` only, not all of Unicode `str.lower()`. Only U+0130 and U+212A lowercase to something containing an ASCII letter (`i` and `k`). Neither letter is in `base64`, so the test agrees with Python for every tag.
- Python strings containing lone surrogates: Dafny characters are Unicode scalar values, so the `UnicodeEncodeError` UTF-8 raises for them has no model input.
- Dict values that are not strings, and list elements that are not dicts, are not modelled. For a non-dict element, `archivo.get` in the `except` handler would raise out of the function.
- `Base64.Decode` is the strict padded decoder of RFC 4648: it refuses non-zero pad bits, and it is not Python's lenient `b64decode`. It serves only to state the round trips.
- The `__main__` blocks, `load_dotenv`, `getenv` and `print` are process entry and environment plumbing.
- `crear_repositorio_github` in docs/app/infrastructure/github/test.py is not part of this model. It is one HTTP POST with an empty-token check and an org/user URL choice.
- Concurrency: there is none. The lost-update race on `sha` between two concurrent invocations is outside this sequential model.
