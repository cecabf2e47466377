# Icon exporter naming loop, modelled in Dafny

This project models the core of an icon export plugin for a design-system
platform. The exporter receives the platform's asset records and walks them in
order. It keeps a record when its `svgUrl` is present and its origin's name
starts with `Icons/`. The record's display name becomes a camel-case
identifier, which the exporter makes unique by appending a counter. For each
kept record it emits one request to copy the remote SVG to
`./assets/<identifier>.svg`.

Modules, one per stage of the loop body in `src/index.ts`:

- `Ascii` (`ascii.dfy`): ASCII character classes and case mapping, standing in
  for `toLowerCase` / `toUpperCase`.
- `Naming` (`normalize.dfy`): the name normaliser of lines 26-29. It holds the
  source's four steps and a character-level reference definition, `Marked`
  followed by `NonSpaces`, which upper-cases every token start and drops the
  spaces. The two are proved equal.
- `Decimal` (`decimal.dfy`): the decimal rendering of the counter in
  `` `${assetName}${dup}` `` and its inverse.
- `Collision` (`collision.dfy`): the `while (assetNames.includes(...))` loop of
  lines 30-34, as a terminating recursive function and as the literal loop.
- `Exporter` (`exporter.dfy`): the asset record and file request datatypes, the
  qualifying guard of line 25, one pass of the loop body (`Step`), the whole
  loop (`Run`), and the `for` loop as a method (`ExportAssets`).
- `Examples` (`examples.dfy`): `"Arrow Left"` becomes `arrowLeft`, and three
  colliding `home` names become `home`, `home1`, `home12`.

Behaviour of the loop that the model makes explicit:

- Suffixes accumulate. The counter is appended to the already-suffixed
  candidate, so a third `home` becomes `home12`, not `home2`
  (`Collision.AttemptShift`, `Examples.HomeCollisions`).
- A normalised name need not start with a letter. It can start with a digit
  (`"2fa"` stays `2fa`), and a name without ASCII letters or digits
  normalises to the empty string (`Naming.NormalizeNoAlnum`). What always
  holds is that its first character is never an upper-case letter
  (`Naming.NormalizeFirstNotUpper`).

## Model

| member | source | states |
|---|---|---|
| `Ascii.LowerString` | src/index.ts:26 | `toLowerCase` keeps the length and sends each character to its ASCII lower-case form; letters stay letters and digits stay digits |
| `Naming.Sanitize` | src/index.ts:27 | the replacement keeps the length, leaves only characters of `[a-zA-Z0-9 ]`, keeps every such character in place, and keeps a position alphanumeric exactly when it was |
| `Naming.Split` | src/index.ts:28 | `split(' ')` yields at least one piece, and no piece contains a space |
| `Naming.SplitRoundTrip` | src/index.ts:28 | joining the pieces of `split(' ')` with single spaces gives the input back, so the split loses no character |
| `Naming.SplitNoSpace` | src/index.ts:28 | a string without spaces splits into itself alone |
| `Naming.SplitAtSpace` | src/index.ts:28 | the first space ends the first piece, and the rest is split on its own |
| `Naming.Capitalize` | src/index.ts:28 | `charAt(0).toUpperCase() + slice(1)` keeps the length, changes at most the first character, which is then not a lower-case letter, and keeps the lower-case form of the word |
| `Naming.LowerFirst` | src/index.ts:29 | lower-casing the first character keeps the length and the lower-case form, leaves no upper-case letter in front, and changes nothing after it |
| `Naming.Marked` | src/index.ts:28 | the reference reading of capitalisation: a character is upper-cased exactly when it starts a space-delimited token, and every other character is unchanged |
| `Naming.JoinCapitalizedSplit` | src/index.ts:28 | split, capitalise every piece and join is the same as upper-casing token starts and dropping the spaces |
| `Naming.NormalizeMatchesReference` | src/index.ts:26-29 | the four-step normaliser equals the character-level reference: lower-case and sanitise, upper-case each token start, drop spaces, lower-case the first character |
| `Naming.NormalizeAlphabet` | src/index.ts:26-29 | the normalised name contains only ASCII letters and digits: no space or punctuation survives |
| `Naming.NormalizeContent` | src/index.ts:26-29 | up to case, the normalised name is exactly the letters and digits of the lower-cased input in order, so its length is their number and at most the input's |
| `Naming.NormalizeFirstNotUpper` | src/index.ts:29 | the first character of the normalised name, if any, is not an upper-case letter |
| `Naming.NormalizeNoAlnum` | src/index.ts:26-29 | a display name without ASCII letters or digits normalises to the empty name |
| `Decimal.Show` | src/index.ts:32 | the rendered counter is a non-empty string of decimal digits without a leading zero |
| `Decimal.ValueOfShow` | src/index.ts:32 | reading the rendered counter back as a decimal number gives the counter |
| `Decimal.ShowInjective` | src/index.ts:32 | distinct counters render as distinct numerals |
| `Collision.ResolveSpec` | src/index.ts:30-34 | the collision loop terminates; its result is not among the names so far, starts with the candidate, has only decimal digits after it, and is the candidate itself when that was free |
| `Collision.AttemptShift` | src/index.ts:32-33 | one more round of the loop equals starting one counter value later, so suffixes accumulate on the candidate |
| `Collision.ResolveIsFirstFree` | src/index.ts:30-34 | the result is the first of the candidates `base`, `base+dup`, `base+dup+(dup+1)`, ... that is free, and every earlier candidate collided |
| `Collision.ResolveLoop` | src/index.ts:30-34 | the literal `while` loop with its counter starting at 1 computes `Resolve` and ends with a name not yet used |
| `Exporter.IconNameSpec` | src/index.ts:26-34 | the name given to a record is new, extends the normalised display name by decimal digits only, and is that normalised name when it is still free |
| `Exporter.StepEffect` | src/index.ts:25-41 | a record adds a name exactly when it qualifies; a non-qualifying record changes nothing; a qualifying one appends one new name and one request carrying its `svgUrl`, and earlier entries stay |
| `Exporter.StepPreserves` | src/index.ts:30-40 | one pass keeps the names free of duplicates and every request named `./assets/<name>.svg` after the name at its position |
| `Exporter.QualifyingSpec` | src/index.ts:23-25 | as sets, the kept records are the input records that pass the guard: every kept one passes and comes from the input, every passing one is kept, and there are at most as many as in the input |
| `Exporter.QualifyingAppend` | src/index.ts:23-25 | the records are filtered one by one in encounter order: the kept records of two lists run together are those of the first followed by those of the second |
| `Exporter.QualifyingSingle` | src/index.ts:25 | a single record is kept, once, exactly when it passes the guard; with `QualifyingAppend` this fixes the kept list, order and multiplicity included |
| `Exporter.RunUnique` | src/index.ts:19-45 | the finished loop has a request `./assets/<name>.svg` for every name at the same position, and no name twice |
| `Exporter.PushName` | src/index.ts:35 | pushing the resolved name of a record keeps every name determined by its record and the names before it |
| `Exporter.PushUrl` | src/index.ts:36-40 | pushing a request with the record's `svgUrl` keeps every request's URL equal to its record's |
| `Exporter.StepCorresponds` | src/index.ts:25-41 | one loop pass keeps names and requests in one-to-one, in-order correspondence with the qualifying records |
| `Exporter.RunCorrespondence` | src/index.ts:23-45 | the `i`-th name is what the normaliser and collision loop make of the `i`-th qualifying record given the names before it, and the `i`-th request copies that record's `svgUrl` to `./assets/<name>.svg` |
| `Exporter.CorrespondingNamesShape` | src/index.ts:26-35 | in any corresponding state, each name is its record's normalised name followed by decimal digits, and consists of ASCII letters and digits |
| `Exporter.NamesShape` | src/index.ts:26-35 | every produced name is its record's normalised name followed by decimal digits only, and consists of ASCII letters and digits |
| `Exporter.ExtendsTransitive` | src/index.ts:35-40 | growing the accumulators at the end twice is growing them at the end once |
| `Exporter.RunExtends` | src/index.ts:35-40 | processing more records never alters names or requests already produced; the accumulators only grow at the end |
| `Exporter.ExportAssets` | src/index.ts:19-45 | the `for` loop with the collision `while` inside computes `Run`, ends with no duplicate name, and returns one request per qualifying record, each named `<name>.svg` after the name at its position |
| `Examples.NormalizeArrowLeft` | src/index.ts:26-29 | `"Arrow Left"` normalises to `arrowLeft` |
| `Examples.HomeCollisions` | src/index.ts:30-34 | a `home` candidate resolves to `home`, `home1` and `home12` against zero, one and two earlier names |

## Left out

- Fetching assets and asset groups from the platform and the asynchronous
  export wrapper (src/index.ts:5-12): remote I/O. The model takes the asset
  list as a given sequence of records.
- The brand filter (src/index.ts:14-17): an exact-match pre-filter applied to
  the asset list before the loop; the asset groups are never used afterwards.
- `FileHelper.createCopyRemoteFile` (src/index.ts:36): a library call. The model
  keeps the descriptor it is given, `{relativePath, fileName, url}`, as the
  datatype `CopyRemoteFile`.
- The `try`/`catch` with `console.log` (src/index.ts:24, 42-44): it only guards
  against run-time nulls and logs. Model records are well-typed (the display
  name is always a string), so nothing throws and nothing is skipped for errors.
- The `localeCompare` sort of `assetNames` (src/index.ts:46): its order depends
  on the locale, and the sorted list is never used, since `svgFiles` is
  returned in encounter order.
- `exportConfiguration` (src/index.ts:51): framework glue.
- Ascii.LowerString: models only ASCII case mapping; JavaScript's full Unicode
  case mapping (for example a character that lower-cases to two) is not
  modelled. Non-ASCII characters are replaced by spaces at the next step either
  way, except where Unicode case mapping would produce an ASCII letter.
- Strings are sequences of Unicode scalar values, not JavaScript's UTF-16 code
  units; the model does not distinguish surrogate pairs.
- Decimal.Show: renders the counter over unbounded naturals. JavaScript
  numbers switch to exponent notation from 1e21 and stop counting exactly
  above 2^53; a counter that large needs as many colliding names, so the
  difference is unreachable in practice.
- `svgUrl` is modelled as present or `null`; JavaScript's `undefined`, which
  would also pass the `!== null` test, is not modelled.
