# security-scanner `#[security_test]` macro, modelled in Dafny

The repository's only logic is the `#[security_test]` attribute macro in
`src/lib.rs`. It tags a function with a security test configuration and
embeds a metadata record for it in a dedicated link section, where an
external scanner can find it by a magic marker. The macro has two parts.
Both are modelled here as pure functions with proved properties.

- **`parse_security_config`** (module `Config`, file `config.dfy`) reads the
  attribute's rendered text. An empty attribute gives the defaults: five flags
  false and threat level `"medium"`. Otherwise each of `sql_injection`,
  `race_condition`, `timing_attack`, `integer_overflow` and `buffer_overflow`
  is set exactly when that keyword occurs anywhere in the text. The threat
  level comes from the priority chain `critical` > `high` > `low`, and
  `"medium"` is what is left.
- **`security_test`** (module `Macro`, file `macro.dfy`) expands the annotated
  function into four items, in this order:
  - the original function, unchanged;
  - the struct definitions `__SecurityTestConfig` and `__SecurityTestMetadata`;
  - a `#[used]` static named `__SECURITY_TEST_METADATA_` followed by the
    upper-cased function name.

  The static holds the function's name, its address, the parsed configuration
  and the magic `0xDEADBEEFCAFEBABE`. It is placed in `.security_tests` on
  Linux, `__DATA,__sec_tests` on macOS and `.sectests` on Windows. On any
  other OS there is no `link_section`.

Module `Text` (`text.dfy`) holds the string operations both parts use.
`Contains` models `str::contains` as a left-to-right search, and `ToUpper`
models `to_uppercase` restricted to ASCII. Each has an independent reference
definition: `Occurs` says some index holds the keyword, and `SameIgnoringCase`
compares characters up to letter case. Lemmas connect each operation to its
reference.

Properties proved beyond the per-function contracts:

- Keyword order and separators do not matter. Text joined by a space, a comma
  or any character outside `[a-z_]` parses to the join of its parts: flags
  are or-ed, and the higher-ranked level wins. Swapping the parts gives the
  same configuration.
- `"medium"` is never matched. Text with none of the eight keywords,
  `medium` included, parses exactly like an empty attribute.
- `overflow` contains `low`. So `buffer_overflow` or `integer_overflow`
  without `critical` or `high` forces the level to `"low"`, and an overflow
  flag never leaves the level at `"medium"`.
- Two function names get the same static name exactly when they differ in
  letter case only. For example, `login` and `Login` collide.
- Every expansion defines both struct types. Two annotated functions in one
  Rust module therefore always define `__SecurityTestConfig` twice. This is
  so even though the source comment says the structs are defined "only once
  per compilation unit".
- As the expansion asks for it (see "## Left out" on the address cast), a
  reader of the OS's section finds exactly one record per annotated
  function, in link order, carrying that function's name, address, parsed
  configuration and the magic. On an unsupported OS the static is still
  emitted, but it carries no `link_section`, so none of the dedicated link
  sections holds a record.

Facts about the record that `src/lib.rs` emits:

- The record is a `#[repr(C)]` struct of a `&'static str` name, an address,
  the configuration and the magic.
- The configuration has five flags, `integer_overflow` among them.
- The threat level is emitted as a string literal.

## Model

| member | source | states |
|---|---|---|
| Text.ContainsIffOccurs | src/lib.rs:81-91 | `Text.Contains`, the left-to-right search that `contains` performs, finds a keyword exactly when some index of the text holds it |
| Text.ToUpper | src/lib.rs:19 | upper-casing keeps the length, maps every character through ASCII upper-casing and leaves no lower-case ASCII letter |
| Config.ThreatLevel | src/lib.rs:87-95 | the level is one of the four strings: `critical` iff the text holds `critical`; `high` iff it holds `high` but not `critical`; `low` iff it holds `low` and neither of those; otherwise `medium` |
| Config.ParseSecurityConfig | src/lib.rs:63-107 | an empty attribute gives the defaults; each of the five flags is true iff its keyword occurs in the text; the threat level follows the priority chain and is always one of four values |
| Config.EmptyBranchAgreesWithSearch | src/lib.rs:64-95 | searching the empty text gives exactly the default configuration, so the empty-attribute branch agrees with the general one |
| Config.ParseAcrossSeparator | src/lib.rs:81-95 | text joined by a non-keyword character parses to the join of its parts: flags or-ed, the higher-priority level kept |
| Config.ParseOrderIndependent | src/lib.rs:81-95 | swapping the pieces around a separator does not change the configuration |
| Config.NoKeywordIsDefault | src/lib.rs:64-95 | text containing none of the eight keywords parses to the empty-attribute default |
| Config.MediumIsNotAKeyword | src/lib.rs:87-95 | the attribute `medium` parses to the default configuration: `medium` is never matched |
| Config.OverflowForcesLow | src/lib.rs:84-91 | text with `buffer_overflow` or `integer_overflow` but neither `critical` nor `high` gets level `low` |
| Config.OverflowFlagNeverMedium | src/lib.rs:84-95 | whenever an overflow flag is set the threat level is not `medium` |
| Config.BufferOverflowAloneIsLow | src/lib.rs:78-95 | the attribute `buffer_overflow` sets only that flag and gets level `low` |
| Config.RaceConditionAlone | src/lib.rs:78-95 | the attribute `race_condition` sets only that flag and keeps level `medium` |
| Config.HighAlone | src/lib.rs:87-95 | the attribute `high` sets no flag and gets level `high` |
| Config.RaceConditionHigh | src/lib.rs:78-95 | the attribute `race_condition high` sets only `race_condition` and gets level `high` |
| Macro.LinkSection | src/lib.rs:48-50 | a link section is chosen exactly for Linux, macOS and Windows |
| Macro.LinkSectionDistinct | src/lib.rs:48-50 | different supported OSes use different sections |
| Macro.MetadataName | src/lib.rs:17-20 | the static's name starts with `__SECURITY_TEST_METADATA_`, is as long as prefix plus function name, and after the prefix holds each character of the function name upper-cased, so no lower-case letter |
| Macro.MetadataNameCollision | src/lib.rs:17-20 | two functions get the same static name iff their names differ in letter case only |
| Macro.LoginCollidesWithCapitalised | src/lib.rs:17-20 | `login` and `Login` derive the same static name |
| Macro.SecurityTest | src/lib.rs:8-61 | the expansion starts with the original function unchanged, holds no other function, ends with the `#[used]` static named from the function and carrying the OS's `link_section` (none off the three OSes), holding the record `Macro.MetadataFor`, and defines no name twice |
| Macro.SecurityTestRecords | src/lib.rs:47-57 | the expansion's only record, `Macro.MetadataFor` (the function's name, its address, the parsed attribute and the magic), is found in the OS's link section and in no other link section |
| Macro.RecordsInConcat | src/lib.rs:47-51 | records of item lists linked together are those of each list, in order |
| Macro.LinkedRecords | src/lib.rs:47-57 | after linking, the OS's section holds exactly one record per annotated function, in order |
| Macro.NoRecordsWithoutSection | src/lib.rs:48-51 | on an OS without a section the statics carry no `link_section`, so none of the link sections holds a record |
| Macro.TwoInOneModuleClash | src/lib.rs:26-45 | two expansions in one module define `__SecurityTestConfig` twice |

## Left out

- `proc_macro`, `syn` and `quote` plumbing is not modelled: `parse_macro_input!`, `TokenStream` conversion and `format_ident!` validity. The attribute is its rendered string (`attr.to_string()`), and `is_empty()` is the empty string. An item that is not a function is rejected by `syn`, which is not part of this model.
- Macro.SecurityTest: the function address (`f as *const fn() as usize`) is kept as the opaque value `AddressOf(name)`, because a function's address only exists at link time. Equal `AddressOf` values do not mean equal addresses: two same-named functions in different modules get the same `AddressOf`.
- rustc's constant evaluation does not accept a cast from a function pointer to an integer, and the static initializer at src/lib.rs:52-57 is a constant context. So rustc can be expected to reject the expansion as written. `Macro.SecurityTestRecords`, `Macro.LinkedRecords`, `Macro.NoRecordsWithoutSection` and the bullet on what a reader of the OS's section finds describe the placement the expansion asks for. They do not describe a binary the code is known to produce.
- Macro.MetadataName: upper-casing is ASCII only. Rust's full Unicode `to_uppercase`, which can change a string's length, is not modelled.
- Text.Contains: it searches characters, not UTF-8 bytes. For the ASCII keywords searched here the two give the same answer.
- `#[used]` and linker behaviour are abstracted: merging sections is concatenation in link order, and only statics marked used are found. Placement of statics without a `link_section` in the compiler's default data section is not modelled.
- The external scanner is not modelled. `RecordsIn` describes only what it would find.
- The `#[repr(C)]` field layout of the two generated structs is not modelled, only their field values. No byte-level record exists in the code.
- `src/types.rs` is not part of this model. It declares plain serde structs, and the macro never produces their extra fields (`input_params`, `compliance_tags`).
