# IAB taxonomy lister — Dafny model

This project models the non-interactive lister of the `iab` tool. The tool reads one of
three embedded IAB taxonomies (Product 2.0, Content 3.1, Audience 1.1). It keeps the
records that pass one command-line filter and prints a block for each of them.

What is modelled, by module:

- `Wrappers`: `Option` and `Result`.
- `Text`: three string operations the lister relies on, with their laws.
  - ASCII lower-casing (`to_lowercase`).
  - Substring search (`str::contains`), proved equal to "the needle occurs at some offset".
  - Joining with a separator (`join`), with a segment law that says where each part sits.
- `Taxonomy`: the shared record shape behind the `TaxonomyItem` trait and the three
  structs `Product`, `Content` and `Audience`.
  - One `Record` datatype with a category tag, id, optional parent, name, the tier
    columns (3, 4 or 6 of them) and an optional extension.
  - The record filter `matches_filter` with its three modes.
  - The tier compaction and the `" | "` tier line of the `Display` impls.
  - The printed fields of a block.
  - The order-preserving filtering of the parsed rows.
- `Cli`: the post-parse logic of `main`.
  - Exactly one taxonomy flag is required.
  - The filter is chosen with the precedence id, then parent, then name.
  - The header lines to skip: 2 for Content, 1 otherwise.
  - How a run ends: exit status, error message, printed records.
  - A whole run, with the embedded datasets and the TSV deserialiser passed in as parameters.

Two points of the code's behaviour that the model keeps as written:

- `matches_filter` (src/main.rs:66-78) compares the id and the parent exactly, with
  letter case significant. It searches the name only, not the tiers or the extension.
- When more than one filter value is present, `main` (src/main.rs:263-272) takes the
  id first, then the parent, then the name.

## Model

| member | source | states |
|---|---|---|
| Text.LowerChar | src/main.rs:73-74 | lower-casing maps an upper-case ASCII letter to its lower-case letter (+32), leaves every other character unchanged, and never yields an upper-case letter |
| Text.LowerStrAt | src/main.rs:73-74 | the lower-cased string has, at every position, the lower-cased character of the input |
| Text.LowerStrIdempotent | src/main.rs:73-74 | a lower-cased string has no upper-case letter, and lower-casing it again changes nothing |
| Text.CaseVariantsIff | src/main.rs:72-76 | two strings lower-case to the same text if and only if they are equal up to the case of ASCII letters |
| Text.LowerStr | src/main.rs:73-74 | lower-casing keeps the length of the string |
| Text.Contains | src/main.rs:75 | a string contains only needles no longer than itself |
| Text.ContainsIff | src/main.rs:75 | the substring search holds if and only if the needle occurs at some offset of the haystack |
| Text.ContainsEmpty | src/main.rs:75 | every string contains the empty string |
| Text.Join | src/main.rs:126 | joining no parts gives the empty string, and a join starts with its first part |
| Text.JoinLength | src/main.rs:126 | a non-empty join is as long as its parts plus one separator between each two |
| Text.JoinSegment | src/main.rs:126 | part k of a join sits at its offset (the earlier parts plus one separator each), and the separator follows it unless it is the last part |
| Text.JoinEmptyIff | src/main.rs:126 | with no empty part, the joined string is empty if and only if there are no parts |
| Taxonomy.MatchesFilter | src/main.rs:66-78 | every record passes the id filter and the parent filter for its own id, and the name filter for its own name |
| Taxonomy.IdFilterExact | src/main.rs:68 | the id filter accepts a record if and only if its id equals the value exactly |
| Taxonomy.IdFilterCaseSensitive | src/main.rs:68 | letter case matters to the id filter: "iab1" rejects the record "IAB1", and "IAB1" accepts it |
| Taxonomy.ParentFilterIff | src/main.rs:69-71 | the parent filter accepts a record if and only if its parent is the value or its own id is the value, so the named record itself is listed |
| Taxonomy.ParentFilterRoot | src/main.rs:70 | a record with no parent passes the parent filter only when its own id equals the value |
| Taxonomy.NameFilterIff | src/main.rs:72-76 | the name filter accepts a record if and only if the lower-cased query occurs at some offset of the lower-cased name |
| Taxonomy.NameFilterCaseInsensitive | src/main.rs:72-76 | the name filter gives the same answer for any casing of the query and of the name |
| Taxonomy.NameFilterEmpty | src/main.rs:72-76 | an empty name query accepts every record |
| Taxonomy.CompactTiers | src/main.rs:106-114 | the shown tiers are no more than the columns, and none of them is empty |
| Taxonomy.CompactTiersMembers | src/main.rs:157-164 | a string is shown as a tier if and only if some column holds it and it is not empty |
| Taxonomy.CompactTiersAppend | src/main.rs:208-218 | compaction keeps column order: compacting two column lists one after the other gives the two compactions one after the other |
| Taxonomy.CompactTiersSingle | src/main.rs:113 | a single column gives its value when it is present and non-empty, and nothing otherwise |
| Taxonomy.CompactTiersBound | src/main.rs:81-90 | a well-formed record shows at most its category's number of tier columns (3, 4 or 6) |
| Taxonomy.TiersLine | src/main.rs:126 | with no shown tier the tier line is empty; otherwise it starts with the first shown tier |
| Taxonomy.TiersLineEmptyIff | src/main.rs:126 | the tier line is empty if and only if no tier is present and non-empty |
| Taxonomy.TiersLineSegments | src/main.rs:176 | otherwise the tier line is the shown tiers in order, each non-empty, with exactly " \| " between each two |
| Taxonomy.TiersLineExample | src/main.rs:230 | the columns "A", empty, absent, "B" print as "A \| B" |
| Taxonomy.Block | src/main.rs:116-129 | a block has four fields for a product and five otherwise, in the order Unique ID (the id), Parent ID (the parent, or empty when there is none), Name (the name), Tiers (the tier line), and then Extension (the extension, or empty) |
| Taxonomy.Listing | src/main.rs:276 | the pipeline keeps no more rows than it reads, and every kept row passes the filter |
| Taxonomy.ListingMembers | src/main.rs:287 | a row is kept if and only if it was read and passes the filter |
| Taxonomy.ListingAppend | src/main.rs:298 | filtering keeps input order: it distributes over concatenation of the input |
| Taxonomy.ListingByParent | src/main.rs:69-71 | listing by parent p keeps exactly the input rows whose parent is p and the row whose id is p |
| Cli.CountTrue | src/main.rs:247-250 | the count of set flags is at most the number of flags, and it is zero if and only if no flag is set |
| Cli.CountTrueThree | src/main.rs:247-250 | the count of the three taxonomy flags is the number of them that are set |
| Cli.MessagesDistinct | src/main.rs:252-271 | the three usage errors print three different messages |
| Cli.HeaderLines | src/main.rs:280-302 | Content skips 2 leading lines of its dataset, Product and Audience skip 1 |
| Cli.Select | src/main.rs:252-272 | no taxonomy flag and two or more taxonomy flags are the first two errors; with exactly one taxonomy flag and no filter value, the error is the missing filter; on success the category is the flag that is set, the filter is id before parent before name, and Content skips 2 header lines while the others skip 1 |
| Cli.SelectSucceedsIff | src/main.rs:263-272 | selection succeeds if and only if exactly one taxonomy flag is set and at least one filter value is given |
| Cli.SkipLines | src/main.rs:280 | skipping n lines leaves the lines after the first n, or nothing when there are fewer |
| Cli.Run | src/main.rs:274-307 | a run fails exactly when selection fails, with the same error; otherwise it prints exactly the listing of the chosen dataset's parsed rows, after its header lines, under the chosen filter: the rows that pass, once each as in the input, in input order |
| Cli.Terminate | src/main.rs:252-272 | a usage error exits with status 1, writes that error's message and prints no record; otherwise the status is 0, nothing goes to standard error and the kept records are printed |
| Cli.NoCategoryExample | src/main.rs:252-255 | with no taxonomy flag the run exits with status 1, writes the missing-pipeline message and prints no record |

## Left out

- TSV deserialisation through `streamwerk_csv` and serde: it is a foreign library. `Cli.Run` takes it as the parameter `parse`.
- The embedded datasets (`include_str!`) and `version_string`: they are static data. `Cli.Run` takes the datasets as the parameter `dataset`.
- The tokio ETL pipeline, `extract_lines` and `StdoutLoad`: they are stream and I/O plumbing. The model keeps only their effect, which is the header skip followed by the order-preserving filter.
- clap's own parsing: the model starts from the parsed flag record. clap's `conflicts_with_all` (src/main.rs:30-38) rejects two filter values before `main` runs, with clap's own usage error and exit status; that path is not modelled.
- The `console::style` colouring and the exact text layout of a block: they are presentation. `Taxonomy.Block` models the labelled fields only.
- Cli.Run: does not model the panic of `.await.unwrap()` (src/main.rs:284, 295, 306) when the pipeline fails, for instance on a row that does not deserialise or a failed write. Such a run ends with a non-zero status after the rows before the failure were printed. The model's `parse` cannot fail, so `Cli.Run` and `Cli.Terminate` describe only runs without such an error.
- Text.LowerChar: models lower-casing for ASCII letters only. Rust's `to_lowercase` also lower-cases non-ASCII letters, and the model leaves those unchanged.
- The tree builder, the ancestor and descendant closure filter, and the tree-view navigation of the interactive variants are not part of this model. Their source is not among the modelled files.
