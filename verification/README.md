# paxmark, modelled in Dafny

paxmark is a small command-line tool that sets the PaX security marks of an
executable. It stores them as a five-character string in the file's
`user.pax.flags` extended attribute. A constant table lists the five marks:
PAGEEXEC, EMUTRAMP, MPROTECT, RANDMMAP and SEGMEXEC. Each mark has a
lower-case option letter that disables it and an upper-case option letter
that enables it (`p`/`P`, `e`/`E`, `m`/`M`, `r`/`R`, `s`/`S`). The tool walks
the table in order. For each mark it emits the lower-case letter if that
option was given, and the upper-case letter otherwise. Then it writes the
string to the first free argument. If help is requested, or no target is
given, it prints usage and writes nothing.

`paxmark.dfy` (module `PaxMark`) models:

- the mark table `FlagTable` and the attribute name `UserPaxFlags`;
- the builder, both as the pure function `BuildWith` / `BuildFlags` and as
  the loop of `main` (`BuildFlagsLoop`);
- the control decision `Decide`. It maps the set of option letters present
  and the list of free arguments to an `Outcome`: `Usage`, or
  `Write(target, key, value)`.

Proved properties:

- the value has exactly five characters, in table order;
- each character depends only on whether that mark's disable option is present;
- enable options are never consulted, so a disable option wins over its enable option;
- with no disable option the value is `"PEMRS"`;
- the table keeps the case convention, and its five marks are distinct;
- a round trip in both directions between built values and the set of
  disabled marks (`DecodeDisabled`);
- help overrides everything;
- a missing target gives usage;
- free arguments after the first are ignored.

The tool never reads the attribute's current value: it overwrites it. It
never consults the enable options, so the disable letter wins when both are
given.

Option letters are modelled as a `set<char>`. The letter `h` stands for
both `-h` and `--help`, because the option parser reports the two spellings
as one option. Targets are opaque strings.

## Model

| member | source | states |
|---|---|---|
| `PaxMark.BuildWith` | src/main.rs:52-59 | for any table, the result has one character per row; row i gives its disable letter when that option is present and its enable letter otherwise (the per-row step, src/main.rs:53-58, is the helper `FlagChar`) |
| `PaxMark.BuildFlags` | src/main.rs:52-59 | the `user.pax.flags` value has length 5; character i is the disable letter of table entry i exactly when that option is present, otherwise its enable letter; it is lower case exactly when the mark is disabled |
| `PaxMark.BuildFlagsLoop` | src/main.rs:52-59 | the push loop of `main` builds exactly the value `BuildFlags` defines, one character per table entry |
| `PaxMark.BuildWithIsFlagChars` | src/main.rs:52-59 | any string that agrees at every position with the per-row choice of the loop is the built value |
| `PaxMark.FlagTableWellFormed` | src/main.rs:20-26 | every enable letter is upper case and its lower case is the disable letter; the five enable letters are pairwise distinct; the disable letters are p, e, m, r, s and the enable letters are P, E, M, R, S |
| `PaxMark.DefaultIsAllEnabled` | src/main.rs:58 | when no disable option is present, the value is `"PEMRS"` |
| `PaxMark.OnlyDisableOptionsMatter` | src/main.rs:53 | two option sets that agree on the table's disable letters build the same value |
| `PaxMark.EnableOptionsIgnored` | src/main.rs:37 | adding or removing any upper-case enable options does not change the value |
| `PaxMark.DisableWinsOverEnable` | src/main.rs:53-55 | when both letters of a mark are given, that position holds the disable letter |
| `PaxMark.LowerCharIdentifiesRow` | src/main.rs:21-25 | under the table convention, each lower-case character of a well-formed value sits at the row whose disable letter it is |
| `PaxMark.DecodeBuild` | src/main.rs:52-59 | round trip: for a well-formed table, the lower-case characters of the built value are exactly the present disable options |
| `PaxMark.BuildDecode` | src/main.rs:52-59 | round trip: for a well-formed table, rebuilding from the disabled marks read off a well-formed value gives that value back |
| `PaxMark.FlagsRoundTrip` | src/main.rs:21-25 | for the tool's table, the disabled marks are recovered exactly from the value, and position i is upper case exactly when mark i is enabled |
| `PaxMark.Decide` | src/main.rs:47-68 | a write happens exactly when help is absent and a free argument exists; it goes to the first free argument under key `user.pax.flags`; its value is the built value, five characters with the disable letter at i exactly when that option is present |
| `PaxMark.HelpOverridesAll` | src/main.rs:47-50 | with help requested the outcome is usage, whatever the other options and free arguments |
| `PaxMark.ExtraFreeArgumentsIgnored` | src/main.rs:66-68 | free arguments after the first do not change the outcome |
| `PaxMark.WrittenValueDecodes` | src/main.rs:66-68 | a written value is the built value, and its lower-case characters are exactly the disable options present |

## Left out

- Option parsing by `getopts` (`Options::new`, `optflag`, `parse`) and the panic on a parse error (src/main.rs:33-45): a foreign library. Its result is modelled only as a set of option letters and a list of free arguments.
- `xattr::set` and the panic when it fails (src/main.rs:68-71): filesystem I/O. The model stops at the `Write` outcome.
- Usage and help text (src/main.rs:7-10 and the `help` strings of the table): presentation only.
- `env::args`, the program name and the `PathBuf` conversion (src/main.rs:29-30, src/main.rs:66): process and OS plumbing. The target is an opaque string.
- Byte encoding of the value: the five characters are ASCII, so `flags.as_bytes()` is one byte per character and is not modelled separately.
