# multi_ir key-layout and mapping model

`multi_ir` is a user-space tool for an IR remote-control driver. It does four things:

1. It reads Android key-layout files (`*.kl`) into dense, keycode-indexed key maps.
2. It chooses the customer layout files whose names fit the product model read from the kernel command line.
3. It builds, for each of those files, a mapping table from customer keycodes to default keycodes.
4. It pushes each table to the driver.

This project models steps 1 to 3 of `multi_ir/multi_ir.c` and proves properties of them:

- `keymap_init` and the parsing loop of `create_keymap_from_file` (module `KeyMap`, file `keymap.dfy`). Both work in place on an `array<Entry>`. The parser is proved against `ApplyLines`, a left fold of the file's lines over the map.
- `generate_mapping_table` (module `Mapping`, file `mapping.dfy`). The table is a class, `MappingTable`, whose `value` array the method fills with a nested loop. The method is proved against the functions `Values` and `PowerKey`.
- `kl_filename_verify` (module `Filename`, file `filename.dfy`). It is a total function on the file name and the product model, with one lemma per branch of its filter.
- The string part of `get_product_model` (module `ProductModel`, file `product_model.dfy`). It is a function on the command-line text.

`cstrings.dfy` (module `CStrings`) holds the C library behaviour these use:

- `strstr`;
- `strncmp` used as a prefix test;
- `isxdigit`;
- `strtol` in base 16;
- the whitespace tokens of `sscanf("%s %d %s")`.

`header.dfy` (module `Header`) stands in for `multi_ir.h`, which is not part of this model. `KEYCODE_CNT`, `KEYCODE_MIN`, `KEYCODE_MAX` and `MAX_NAME_LEN` are taken from an arbitrary value of a subset type. That type demands only two things:

- `0 <= KEYCODE_MIN <= KEYCODE_MAX < KEYCODE_CNT`, so that every accepted keycode indexes the map;
- `MAX_NAME_LEN > 8`, so that the reserved name `!RESERVE` and its terminator fit a slot.

Every proof holds for all such values.

How the model reads a layout line:

- A line is a comment when its first character other than ' ' is `#`.
- Otherwise `sscanf` succeeds when the line has at least three whitespace-separated tokens and the second is a whole signed decimal number. Tokens after the third are ignored, as they are by `sscanf`.
- A line is applied when its label is `key` and its keycode lies in `[KEYCODE_MIN, KEYCODE_MAX]`.

How the file-name filter places the model: with a model other than the short forms, the model is compared at offset 17, one separator after the four identity digits. So `customer_ir_9f00foobar.kl` with model foobar does not match there (offset 17 holds `o`). It falls back to the default identities 4cb3 and fe01, and is rejected with -1 (`Filename.FallbackRejection`).

## Model

| member | source | states |
|---|---|---|
| KeyMap.KeymapInit | multi_ir/multi_ir.c:73-80 | every slot of the map becomes `(0, "!RESERVE")` |
| KeyMap.InitialMapsWellFormed | multi_ir/multi_ir.c:73-80 | the reserved map and the zero-filled map both have KEYCODE_CNT slots, are dense (each slot's keycode is its index or 0), and have names that fit their buffers |
| KeyMap.LeadingSpaces | multi_ir/multi_ir.c:127-128 | the count stops at the first character other than ' ', and every character before it is ' ' |
| KeyMap.Scan | multi_ir/multi_ir.c:131 | a successful scan yields a label token, a decimal keycode and a name token |
| KeyMap.Directive | multi_ir/multi_ir.c:127-136 | a line that is applied names an in-range keycode and a non-empty, space-free name that fits its buffer |
| KeyMap.CreateKeymapFromFile | multi_ir/multi_ir.c:111-146 | open failure gives -1 and leaves the map untouched; otherwise the map is the old map with every line applied in order (`ApplyLines`), the result is -1 after a read fault and 0 at end of file, and an empty file leaves the map as it was |
| KeyMap.ApplyLinesStep | multi_ir/multi_ir.c:126-137 | parsing one more line applies that line to the map parsed so far |
| KeyMap.ScanKeyLine | multi_ir/multi_ir.c:129-131 | the text `key <k> <name>` is not a comment and scans as `("key", k, name)` |
| KeyMap.KeyLineSetsSlot | multi_ir/multi_ir.c:131-136 | a line `key k name` with k in range and a name that fits sets slot k to `(k, name)` and leaves every other slot unchanged |
| KeyMap.SkippedLineLeavesMap | multi_ir/multi_ir.c:127-132 | a comment, a failed scan, a label other than `key`, a keycode out of range, or an over-long name leaves the whole map unchanged |
| KeyMap.SpacesThenHashIsComment | multi_ir/multi_ir.c:127-129 | any number of spaces, then `#`, makes a comment line |
| KeyMap.ApplyLinesAppend | multi_ir/multi_ir.c:126-137 | parsing `a + b` is parsing `a` and then `b` |
| KeyMap.DirectiveSetsSlot | multi_ir/multi_ir.c:134-136 | an applied line sets its slot to its keycode and name |
| KeyMap.OtherLineKeepsSlot | multi_ir/multi_ir.c:126-137 | a line that does not target slot k leaves slot k as it was |
| KeyMap.UntargetedSlotUnchanged | multi_ir/multi_ir.c:126-137 | a slot that no line targets keeps its initial value through the whole parse |
| KeyMap.LastWriteWins | multi_ir/multi_ir.c:131-136 | when line i is the last line that targets slot k, slot k holds `(k, name of line i)` after the parse |
| KeyMap.ApplyLinesWellFormed | multi_ir/multi_ir.c:126-137 | parsing keeps a map dense and keeps every name within its MAX_NAME_LEN buffer |
| KeyMap.ParsedNamesNonEmpty | multi_ir/multi_ir.c:73-80 | a parse into the reserved map leaves no slot with an empty name |
| KeyMap.ApplyLinesKeepsUnsetBlank | multi_ir/multi_ir.c:126-137 | parsing into a map whose slots not holding their own keycode have empty names keeps that so, as for the zero-filled customer map |
| KeyMap.ParsesAgreeOnSetSlots | multi_ir/multi_ir.c:126-137 | the same lines parsed into two maps leave each slot either equal in both or as it was in each |
| KeyMap.DirectiveAsWritten | multi_ir/multi_ir.c:131-136 | the parser as written: the same lines are applied as by `Directive`, plus lines whose name does not fit its buffer |
| KeyMap.OverlongNameOverflows | multi_ir/multi_ir.c:115-136 | the line `key KEYCODE_MIN` followed by a name of MAX_NAME_LEN letters is applied as written (its name overflows the slot) and skipped by `Directive` |
| Mapping.FirstMatchFrom | multi_ir/multi_ir.c:163-174 | the result is the first default slot from j on whose keycode is not 0 and whose name equals the customer name, or there is none |
| Mapping.FirstMatchAt | multi_ir/multi_ir.c:164-167 | a matching slot with no match before it is the one the inner loop stops at |
| Mapping.ValuesAfter | multi_ir/multi_ir.c:160-176 | the table has KEYCODE_CNT entries after any number of customer slots |
| Mapping.MappingTable.constructor | multi_ir/multi_ir.c:71 | a new table has identity 0, power key 0 and KEYCODE_CNT zero values |
| Mapping.GenerateMappingTable | multi_ir/multi_ir.c:155-177 | afterwards identity is 0, the values are `Values(src, des)` and the power key is `PowerKey(src, des)`, so the table depends only on the two maps and building it twice gives the same table |
| Mapping.ValueZeroIffUnwritten | multi_ir/multi_ir.c:160-167 | entry k is 0 if and only if no customer slot with keycode k has a name that matches a default slot |
| Mapping.LastWriterWins | multi_ir/multi_ir.c:161-167 | entry k holds the keycode of the first default match of the last customer slot that writes k |
| Mapping.DenseSlotValue | multi_ir/multi_ir.c:160-176 | for a dense customer map, entry k > 0 is the keycode of the first default slot named like customer slot k, or 0 when slot k is unset or its name has no match |
| Mapping.FirstMatchSmallestKeycode | multi_ir/multi_ir.c:73-80 | in a dense default map, the first match is never a reserved slot, and its keycode is the smallest among the matches |
| Mapping.PowerKeyCharacterised | multi_ir/multi_ir.c:169-171 | the power key is 0 when the default map has no POWER key, or when no customer POWER slot has a nonzero keycode; otherwise it is the keycode of the first such slot, and later ones do not overwrite it |
| Mapping.SlotZeroValue | multi_ir/multi_ir.c:160-167 | for a dense customer map whose unset slots have empty names, and a default map where no slot matches the empty name, entry 0 is the first-match keycode of customer slot 0, or 0 |
| Mapping.ParsedDefaultNoEmptyMatch | multi_ir/multi_ir.c:165-166 | no slot of a default map parsed into the reserved map matches the empty name |
| Mapping.ParsedLayoutsValue | multi_ir/multi_ir.c:126-176 | for layouts parsed into the reserved and zero-filled maps, every entry k (0 included) is the smallest default keycode whose name equals customer slot k's name, or 0 when slot k was never set or its name is not in the default layout |
| Mapping.ParsedSameLayoutIsIdentity | multi_ir/multi_ir.c:126-176 | one layout parsed both as default (into the reserved map) and as customer (into the zero-filled map) sends every set slot k > 0 to k when no lower default slot has the same name |
| CStrings.FindFrom | multi_ir/multi_ir.c:203 | the result is the first occurrence of the pattern at or after i, or the pattern does not occur there |
| CStrings.HexRunLength | multi_ir/multi_ir.c:282 | the run of hex digits `strtol` reads stops at the first character that is not a hex digit |
| CStrings.Strtol16OfRun | multi_ir/multi_ir.c:282 | `strtol(s, .., 16)` is the value of the hex run, up to the first character that is not a hex digit |
| CStrings.Strtol16OfFourDigits | multi_ir/multi_ir.c:275-282 | four hex digits followed by `.` read as their value, at most 0xFFFF |
| CStrings.TokensOfTriple | multi_ir/multi_ir.c:131 | three space-free tokens joined by spaces split back into those three tokens |
| Filename.KlFilenameVerify | multi_ir/multi_ir.c:222-286 | the result is -1 or an identity of at least 0; an identity means the name has the prefix `customer_ir_` and four hex digits at 12-15, and it is at least the value of those digits |
| Filename.IdentityRunCoversDigits | multi_ir/multi_ir.c:275-282 | once four hex digits are checked, `strtol` reads at least their value |
| Filename.ShortFormAcceptance | multi_ir/multi_ir.c:228-285 | with no model, or a model starting with CanC, AMOI_B or EARISE_K, a name is accepted if and only if it has the prefix, four hex digits and `.kl` at offset 16; the identity is then the value of the digits, at most 0xFFFF |
| Filename.FourDigitsThenDot | multi_ir/multi_ir.c:275-282 | four hex digits followed by `.kl` read as exactly their 16-bit value |
| Filename.EmbeddedModelAcceptance | multi_ir/multi_ir.c:243-285 | with any other model found at offset 17, a name is accepted if and only if it has the prefix and four hex digits and ends in `.kl`; with a separator that is not a hex digit, the identity is the value of the four digits |
| Filename.EmbeddedModelIdentity | multi_ir/multi_ir.c:245-282 | in that branch, an accepted name's identity is `strtol` of the whole hex run from offset 12 |
| Filename.FallbackAcceptance | multi_ir/multi_ir.c:254-263 | with any other model not found at offset 17, a name is accepted if and only if it has the prefix, digits 4cb3 or fe01, and `.kl` at offset 16; the identity is then 0x4cb3 or 0xfe01 |
| Filename.DefaultIdentityValueA | multi_ir/multi_ir.c:256-258 | 4cb3 is hexadecimal and reads as 0x4cb3 |
| Filename.DefaultIdentityValueB | multi_ir/multi_ir.c:258 | fe01 is hexadecimal and reads as 0xfe01 |
| Filename.NameLayout | multi_ir/multi_ir.c:228-279 | a name built as prefix, four characters and a tail has the prefix, those characters at 12-15 and the tail from 16; with hex characters, it has a hex identity |
| Filename.ShortFormName | multi_ir/multi_ir.c:236-285 | with no model or a short-form model, `customer_ir_` + four hex digits + a tail starting `.kl` is accepted with the digits' value |
| Filename.EmbeddedModelName | multi_ir/multi_ir.c:245-285 | with another model, `customer_ir_` + four hex digits + a non-hex separator + the model + `.kl` is accepted with the digits' value |
| Filename.NoModelExample | multi_ir/multi_ir.c:266-285 | `customer_ir_9f00.kl` with no model gives 0x9f00 |
| Filename.TrailingTextExample | multi_ir/multi_ir.c:268-271 | `customer_ir_9f00.kl.bak` with no model gives 0x9f00: the extension test is a prefix test |
| Filename.NoModelRejections | multi_ir/multi_ir.c:228-279 | `customer_ir_xxxx.kl` and `other_9f00.kl` are rejected |
| Filename.ShortFormExample | multi_ir/multi_ir.c:236-242 | `customer_ir_9f00.kl` with model CanC gives 0x9f00 |
| Filename.FoobarIsNotShortForm | multi_ir/multi_ir.c:236 | the model foobar is not a short-form model |
| Filename.EmbeddedModelExample | multi_ir/multi_ir.c:245-253 | `customer_ir_9f00_foobar.kl` with model foobar gives 0x9f00 |
| Filename.HexRunExample | multi_ir/multi_ir.c:282 | from offset 12 of `customer_ir_9f00afoobar.kl`, `strtol` reads 0x9f00af |
| Filename.HexSeparatorExample | multi_ir/multi_ir.c:245-282 | `customer_ir_9f00afoobar.kl` with model foobar gives 0x9f00af: a hex separator lengthens the identity |
| Filename.FallbackRejection | multi_ir/multi_ir.c:254-259 | `customer_ir_9f00foobar.kl` with model foobar is rejected: the model is not at offset 17, and 9f00 is not a default identity |
| Filename.FallbackExample | multi_ir/multi_ir.c:254-263 | `customer_ir_4cb3.kl` with model foobar gives 0x4cb3 |
| ProductModel.GetProductModel | multi_ir/multi_ir.c:203-213 | -1, with the model unchanged, if and only if `inside_model` does not occur; otherwise 0 and a space-free model shorter than 32, which is exactly the text from 13 past the first occurrence up to the next space |
| ProductModel.MarkerThenToken | multi_ir/multi_ir.c:203-213 | a command line whose first marker is followed by `=`, a token and a space yields that token |
| ProductModel.FirstMarker | multi_ir/multi_ir.c:203 | the marker placed after text that does not contain it is the first occurrence `strstr` finds |
| ProductModel.UpToSpace | multi_ir/multi_ir.c:211-213 | the copied text up to the first space is space-free and followed by that space |
| ProductModel.TokenThenSpace | multi_ir/multi_ir.c:211 | the copy stops at the space that ends a space-free token |

## Left out

- Multi-byte characters: each Dafny `char` stands for one byte of the C string. The byte offsets 12, 16 and 17 of the file-name filter, the MAX_NAME_LEN name buffers and the 32-byte model buffer are counted in characters. A name with a multi-byte UTF-8 character, such as `é`, is therefore not modelled: its bytes shift the offsets and lengths the C code sees.
- `main` is not part of this model: opening the device, the two ioctls, listing the key-layout directory, and the exit codes (multi_ir/multi_ir.c:288-359). These are I/O and kernel transport.
- `fopen`, `fgets`, `feof` and `fclose` are replaced by `LayoutFile`. A file either cannot be opened, or it delivers a sequence of lines and then stops at end of file or on a read fault.
- The `/proc/cmdline` `fopen` and `fread` (multi_ir/multi_ir.c:187-201) are left out. `GetProductModel` takes the text that was read, and does not model the 1024-byte read limit. The caller's initialisation of the model buffer to empty is its `model` argument.
- The `DEBUG` dump functions and the `ALOGD` and `fprintf` logging are left out, because they only print.
- Some `sscanf` corner cases are not modelled:
  - `%d` reading a number prefix of a token such as `12ab`;
  - a label longer than the 32-byte `lable` buffer (such a label is not `key`, so the line is skipped either way);
  - `fgets` splitting lines longer than 1023 characters;
  - NUL characters inside a line.
- KeyMap.Directive: a name too long for its MAX_NAME_LEN buffer rejects the line. The C code copies it anyway and overflows the slot (see Findings).
- ProductModel.GetProductModel: requires `CopyInBounds`, meaning that a space follows the marker and that the copied model fits the 32-byte buffer. Otherwise the C copy loop reads or writes out of bounds.
- Filename.KlFilenameVerify: does not model `strtol` overflow. In the embedded-model branch the identity is the value of the whole hex run, unbounded, and it can exceed 0xFFFF. `strtol` clamps a run that overflows `long`, and the result is then truncated to `int`.
- Filename.KlFilenameVerify: a comparison that would read past the end of a name shorter than 16 or 17 characters is taken not to match. The C code reads past the terminator there. Such a name is rejected in both, whatever those bytes hold, because it fails the hex-digit test at 12-15 or the `.kl` tests.
- Mapping.GenerateMappingTable: requires that every customer keycode indexes the table. This holds for maps that `keymap_init`, `memset` and the parser produce (`KeyMap.ApplyLinesWellFormed`).

## Findings

| source | as written | input that shows it | evidently intended | confidence | as-written member | corrected member |
|---|---|---|---|---|---|---|
| multi_ir/multi_ir.c:131-136 | `%s` reads the name unbounded into `name[MAX_NAME_LEN]`, and `strcpy` copies it into the slot with no length check | the line `key KEYCODE_MIN` followed by a name of MAX_NAME_LEN characters | a name that does not fit its buffer is rejected, so every slot name fits | not executed | KeyMap.OverlongNameOverflows | KeyMap.ApplyLinesWellFormed |
