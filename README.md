# IT-Grundschutz compendium converter — a Dafny model

grundschmutz-tools turns the IT-Grundschutz compendium of the German BSI into
machine-readable JSON tables. An extractor reads three things:

- the compendium's documents: one table of contents and one content page per
  module (Baustein);
- the overview page of module categories (Bausteinkategorien);
- the cross-reference workbook (Kreuzreferenztabelle, KRT).

From them the extractor builds dictionaries of categories, elementary threats
(Gefährdungen), and modules with their requirements (Anforderungen) and their
responsible role.

The converter then walks these dictionaries in sorted order. It builds numbered,
linked tables:

- `bausteinkategorie`, `baustein`, `rolle` and `anforderung`;
- `gefaehrdung`, and the association table `anforderung_gefaehrdung`.

Each association points at protection goals (Schutzziele) looked up by letter.

The model has five modules:

- **`Py`** — the Python built-ins the program relies on:
  - `str.split`, `join`, `find`, `strip`, whitespace `split()`, `splitlines`, `upper` and `lower`;
  - an insertion-ordered `dict` as an association list;
  - the exceptions the code can raise (`IndexError`, `KeyError`, `ValueError`, `TypeError`) as a `Result`.
- **`Common`** — `tools/lib/common.py` and `tools/common.py`:
  - `clean_gap`;
  - `get_from_json` on a decoded JSON value;
  - the framing `save_json` writes;
  - the text pre-pass of `get_dataframe_from_csv`.
- **`Order`** — the two orders `sorted` is used with:
  - code-point order on category names;
  - `parse_version` order on dotted decimal keys.
- **`Bsi`** — `tools/lib/BSI.py`. Its pure parsers of headings, links and KRT rows are functions. The class `Bsi.Extractor` keeps the four caches as fields. Each extractor method is a loop, proved equal to a scan over the parsed items.
- **`Convert`** — `tools/download_and_convert.py`:
  - `get_or_create` on a `JsonTable` class, whose `records` field is the list and the file at once;
  - the label and role parsers;
  - the conversion loops, each a method proved equal to a left fold that stops at the first exception;
  - lemmas about the tables the folds produce: ids are positions, names are unique, and every reference points at an existing row. There are also lemmas on which records each loop appends, in which order.

Downloads, unzipping, PDF-to-HTML conversion, XPath and pandas are not modelled. Their results become parameters:
- each module document is its list of table-of-contents link texts plus its list of paragraph texts;
- the overview page is its list of `h2` heading texts;
- the threat listing is its list of link texts;
- the workbook is a map from sheet name to a sheet of string cells.

## Model

| member | source | states |
|---|---|---|
| Common.CleanGap | tools/lib/common.py:20-21 | Same length as the input. Every no-break space becomes a plain space; every other character is kept. |
| Common.CleanGapNormalises | tools/common.py:15-16 | The result holds no no-break space. Text without one is returned unchanged. |
| Common.CleanGapIdempotent | tools/lib/common.py:20-21 | Cleaning twice is cleaning once. |
| Common.FirstMatch | tools/lib/common.py:29-31 | The index of the first element whose `attr` equals the value. No earlier element matches. None exactly when no element matches. |
| Common.Lookup | tools/lib/common.py:24-34 | Success exactly when the data is a list and its first matching element has an `id`; the result is that element's `id`. A ValueError when the data is not a list or nothing matches. |
| Common.GetFromJson | tools/lib/common.py:24-34 | The search loop returns exactly `Lookup`, including the KeyError for a match without `id`. |
| Common.RecordLines | tools/lib/common.py:39-41 | One line per record: indented by two, with a comma after all but the last. |
| Common.SaveJsonEmpty | tools/lib/common.py:37-41 | `SaveJsonText`: an empty table is written as `[`, an indented empty line, and `]`. |
| Common.SaveJsonLayout | tools/lib/common.py:37-41 | `SaveJsonText`: a non-empty table is written as `[`, then one line per record, then `]`, then a final newline. |
| Common.JoinRecords | tools/lib/common.py:39-41 | Joining with comma-newline-indent equals joining the record lines with newlines. |
| Common.SaveJsonLines | tools/lib/common.py:37-41 | When no encoded record contains a line break, the written text splits into exactly the record count plus two lines: the brackets and one line per record. |
| Common.RecordLineOneLine | tools/lib/common.py:39-41 | A record line contains no line break when the encoded record contains none. |
| Common.SliceFrom | tools/lib/common.py:66 | Python slicing `xs[k:]`: the suffix from k when in range, empty past the end, counted from the end for a negative k. |
| Common.CsvPrePassSkipAll | tools/lib/common.py:65-68 | `CsvPrePass`: skipping at least as many lines as the text has leaves only the prepended header. |
| Common.SplitLinesNewlines | tools/lib/common.py:65 | For text whose only line breaks are `\n` and which does not end in one, joining its lines with `\n` gives back the text. |
| Common.CsvPrePassKeepAll | tools/lib/common.py:65-68 | `CsvPrePass`: when no lines are skipped, the text uses only `\n` breaks and does not end in one, the pre-pass is the header followed by the unchanged text. |
| Order.LexTotal | tools/download_and_convert.py:70 | The lexicographic order on keys is total. |
| Order.LexTrans | tools/download_and_convert.py:70 | The lexicographic order on keys is transitive. |
| Order.LexAntisym | tools/download_and_convert.py:70 | The lexicographic order on keys is antisymmetric. |
| Order.Sort | tools/download_and_convert.py:67-70 | The sort is a permutation of its input (multiset equality). |
| Order.SortSorted | tools/download_and_convert.py:67-70 | The sort's output is ordered by key. |
| Order.SortTexts | tools/download_and_convert.py:67-70 | The sorted texts are a permutation of the input texts. |
| Order.SortKeyedBy | tools/download_and_convert.py:67-70 | Sorting texts by any key function yields a permutation of the texts, in non-decreasing key order. |
| Order.SortStable | tools/download_and_convert.py:67-70 | The sort is stable, as Python's `sorted` is: the entries with any one key come out in the order they were given in. |
| Order.SortedNamesOrder | tools/download_and_convert.py:67 | `sorted` on category names is a permutation, in code-point lexicographic order. |
| Order.NumeralRoundTrip | tools/download_and_convert.py:70-71 | A canonical numeral prints back from its value unchanged. |
| Order.NatStrRoundTrip | tools/download_and_convert.py:70-71 | Parsing the printed form of a number gives the number back. |
| Order.ParseRelease | tools/download_and_convert.py:70 | Success exactly when every dot-separated part is a decimal numeral, with one component per part holding that numeral's value. Otherwise the `InvalidVersion` (a `ValueError`) with the message `Invalid version: '<x>'`. |
| Order.ReleaseKey | tools/download_and_convert.py:70 | The comparison key is the release with trailing zeros removed: a prefix of it whose last component is non-zero, with only zeros dropped. |
| Order.CanonicalReleaseRoundTrip | tools/download_and_convert.py:70-71 | For a canonical key, `str(parse_version(k)) == k`, so the dictionary lookup by printed version finds the original key. |
| Order.VersionEntries | tools/download_and_convert.py:70 | Success only when every key parses, with one entry per key. An error is the parse error of some key. |
| Order.VersionEntriesCanonical | tools/download_and_convert.py:70 | On canonical keys every entry is the key paired with its version key. |
| Order.SortedVersions | tools/download_and_convert.py:70 | It raises if and only if some key is not a version, with that key's error. Otherwise it holds every key's printed version exactly as often as the key occurs. |
| Order.SortedVersionsOrder | tools/download_and_convert.py:70-71 | On canonical keys, sorting by version succeeds, permutes the keys and orders them by version. |
| Order.SortedVersionsInvalid | tools/download_and_convert.py:70 | One invalid key makes the sort raise. |
| Order.ParseOne | tools/download_and_convert.py:70 | A version without a dot parses to the single value of its numeral. |
| Order.ParseTwo | tools/download_and_convert.py:70 | A two-part version parses to its two numeral values. |
| Order.TrailingZeroIgnored | tools/download_and_convert.py:70 | `1.0` and `1` compare equal. |
| Order.ZeroComponentIgnored | tools/download_and_convert.py:70 | Appending a zero component does not change the comparison key, so `a.0` compares equal to `a`. |
| Order.NumericComponents | tools/download_and_convert.py:70 | Components compare as numbers: `1.9` sorts strictly before `1.10`. |
| Bsi.ScanSteps | tools/lib/BSI.py:139-153 | A scan collects at most one entry per parsed item. |
| Bsi.ScanFails | tools/lib/BSI.py:139-153 | A scan fails exactly when some item's parse raises. The error is that of the first such item. |
| Bsi.LastEmit | tools/lib/BSI.py:150-151 | The last item that assigns a key; no later item assigns it; None when no item does. |
| Bsi.ScanLastWins | tools/lib/BSI.py:150-151 | In the dictionary a successful scan builds, each key holds the value of the last item that assigned it. A key no item assigns is absent. |
| Bsi.ParseCategoryHeading | tools/lib/BSI.py:142-151 | The 'Ähnliche Themen' heading is skipped. A heading without ': ' raises IndexError. Otherwise the entry is the cleaned text before the first ': ' and the cleaned text between it and the next ': '. |
| Bsi.CategorySteps | tools/lib/BSI.py:139-151 | One parse per heading, in order. |
| Bsi.CategoryHeadingParts | tools/lib/BSI.py:142-151 | A heading `name: caption` yields exactly (cleaned name, cleaned caption). |
| Bsi.HazardSteps | tools/lib/BSI.py:166-178 | One parse per link, in order. |
| Bsi.HazardLinkShape | tools/lib/BSI.py:166-178 | `ParseHazardLink`: links not starting with `G 0` are skipped. A `G 0` link without a dot in its number raises. Otherwise the threat is named by its first two tokens and labelled by the rest. Its key is the part of the number between its first dot and the next dot, or the end. Name and label hold no no-break space. |
| Bsi.HazardOfTokensShape | tools/lib/BSI.py:169-178 | The same statement, made on the token list of a threat link. |
| Bsi.ModuleLinkParts | tools/lib/BSI.py:198-206 | `ParseModuleLink`: a parsed module has a non-empty name without spaces. Its category and number re-join to the name at the first dot; a name without a dot is its own category with an empty number. |
| Bsi.RequirementSteps | tools/lib/BSI.py:209-220 | One parse per table-of-contents link of the module, in order. |
| Bsi.RequirementLinkKey | tools/lib/BSI.py:209-220 | `ParseRequirementLink`: an accepted requirement link starts with the module name and has a first token that contains `<module>.A`. Its key is the text of that token after the first `<module>.A`, up to the next one or the end. Its name is that token, cleaned. |
| Bsi.RequirementOfTokens | tools/lib/BSI.py:211-220 | The same statement, made on the token list of a requirement link. |
| Bsi.HazardKey | tools/lib/BSI.py:171-172 | The name `G <number>` splits at a dot exactly when the number holds one. The second part is then the number's text between its first dot and the next dot, or the end. |
| Bsi.FirstStarting | tools/lib/BSI.py:224-226 | The first paragraph starting with the header; None when none does. |
| Bsi.RoleAt | tools/lib/BSI.py:231-238 | The role read at a header paragraph is stripped. It raises exactly when the paragraph holds nothing after the header and no paragraph follows. |
| Bsi.ResponsibleRole | tools/lib/BSI.py:222-251 | The role is stripped. Errors are IndexErrors. A document with neither header paragraph raises. |
| Bsi.RoleFromHeaderParagraph | tools/lib/BSI.py:228-251 | The role is the text after the header in the same paragraph when there is some, else the next paragraph stripped. A missing next paragraph raises. 'Bausteinverantwortlicher' is used only when 'Grundsätzlich zuständig' is absent. |
| Bsi.RoleNeverBareOt | tools/lib/BSI.py:253-255 | After the fix-up no stored role is the bare `OT-Betrieb`. |
| Bsi.ModuleStepOf | tools/lib/BSI.py:196-264 | The body of the module-link loop returns exactly `ModuleStep`: skip a link that is not a module link, else the module with its requirements and role, or the first exception among them. |
| Bsi.DocSteps | tools/lib/BSI.py:197-264 | One parse per table-of-contents link of a module document. |
| Bsi.PutModule | tools/lib/BSI.py:257-264 | After storing a module, its category exists and maps its number to that module. |
| Bsi.LastModule | tools/lib/BSI.py:257-264 | The last link that stores a given category and number, or None when no link does. |
| Bsi.ModulesLastWins | tools/lib/BSI.py:257-264 | In the nested dictionary a successful pass builds, each category and number hold the module of the last link that stored them. Pairs never stored are absent. |
| Bsi.PutModuleOthers | tools/lib/BSI.py:257-264 | Storing a module leaves every other category and number untouched. |
| Bsi.HazardColumns | tools/lib/BSI.py:289-290 | The threat columns are exactly the columns from the fourth on that start with `G`: a value is among them if and only if it is such a column. There are no more of them than columns from the fourth on. |
| Bsi.HazardColumnsIndices | tools/lib/BSI.py:289-290 | The threat columns are the fourth-and-later columns at the positions of their `G` entries, in column order: the k-th threat column is column 3 + (k-th such position). |
| Bsi.FilterG | tools/lib/BSI.py:289-290 | A value is kept if and only if it is an entry starting with `G`; when all entries start with `G`, all are kept. |
| Bsi.GIndices | tools/lib/BSI.py:289-290 | The positions of the entries starting with `G`: strictly increasing, and a position is listed exactly when its entry starts with `G`. |
| Bsi.FilterGIndices | tools/lib/BSI.py:289-290 | The filter keeps its input's order: its k-th entry is the entry at the k-th `G` position. |
| Bsi.MarkedPairs | tools/lib/BSI.py:297-303 | Every pair produced carries the row's protection-goal letters. |
| Bsi.FirstRow | tools/lib/BSI.py:291-292 | The first row whose cell in the module's column, stripped, equals the requirement name. None exactly when no row has it. |
| Bsi.ColumnIndex | tools/lib/BSI.py:291 | The position of the named column, or None when the sheet has none. |
| Bsi.KrtRow | tools/lib/BSI.py:288-293 | Without a workbook it raises a TypeError. A missing sheet raises KeyError(sheet), a missing module column KeyError(column). With sheet and column present it succeeds if and only if some row's cell in that column, stripped, is the requirement name; it then returns the first such row, else raises an IndexError. A row found has one cell per column. |
| Bsi.MarkedPairsFrom | tools/lib/BSI.py:297-303 | A threat name appears among the pairs exactly when some column marked `x` normalises to it. |
| Bsi.MarkedHazards | tools/lib/BSI.py:297-305 | The result dictionary has a threat exactly when a column marked `x` normalises to it. Its value is the row's goal letters. |
| Bsi.KrtPairingAligned | tools/lib/BSI.py:289-293 | When every column from the fourth on is a `G` column, the threat columns are exactly those columns and pair with the cells at the same positions. |
| Bsi.IsMarkedCases | tools/lib/BSI.py:302 | A cell marks a threat exactly when, stripped, it is `x` or `X`. |
| Bsi.NormaliseKeepsCanonical | tools/lib/BSI.py:298-301 | A well-written `G 0.n` is unchanged. |
| Bsi.NormaliseFixesMissingSpace | tools/lib/BSI.py:299 | `G0.n` becomes `G 0.n`. |
| Bsi.NormaliseFixesSwappedDot | tools/lib/BSI.py:300 | `G.0n` becomes `G 0.n`. |
| Bsi.NormaliseDropsZero | tools/lib/BSI.py:301 | `G 0.0n` becomes `G 0.n`. |
| Bsi.NormaliseNotIdempotent | tools/lib/BSI.py:298-301 | The fix-up is not idempotent: `G 0.00` becomes `G 0.0`, which becomes `G 0.`. |
| Bsi.RowHazardsMarked | tools/lib/BSI.py:293-305 | A row's dictionary has exactly the normalised threats whose cell is marked `x`. Each maps to the upper-cased, stripped goal cell. |
| Bsi.KrtLookupHazards | tools/lib/BSI.py:268-305 | `KrtLookup`: a fixed answer is returned as it is. Otherwise the lookup raises exactly the row lookup's error, and a row found yields exactly the normalised threats whose cell in that row is marked. |
| Bsi.KrtQueryOfName | tools/lib/BSI.py:269-288 | Which sheet, module column and row name a requirement name is looked up under. This covers the `INF.2_` sheet, the renamed `ORP.1.A09` and `APP.4.4.A09` rows, and the 2022 literal for `APP.4.3.A24`. |
| Bsi.KrtQueryOrp1A9 | tools/lib/BSI.py:274-275 | `ORP.1.A9` is looked up as row `ORP.1.A09` of sheet `KRT_ORP.1.xlsx`. |
| Bsi.KrtQueryApp44A9 | tools/lib/BSI.py:285-286 | `APP.4.4.A9` is looked up as row `APP.4.4.A09`. |
| Bsi.KrtQueryInf2 | tools/lib/BSI.py:272-273 | `INF.2` requirements are read from sheet `KRT_INF.2_.xlsx`, under column `INF.2`. |
| Bsi.KrtQueryApp43A24 | tools/lib/BSI.py:277-284 | In edition 2022, `APP.4.3.A24` yields the fixed seven threats whatever the workbook holds. In 2021 it is read from the workbook. |
| Bsi.CollectRequirements | tools/lib/BSI.py:208-220 | The requirement loop returns exactly the dictionary the module's requirement scan builds. |
| Bsi.Extractor.constructor | tools/lib/BSI.py:41-49 | All caches are empty, there is no workbook yet, and the edition is recorded. |
| Bsi.Extractor.Setup | tools/lib/BSI.py:121-129 | The workbook becomes the loaded sheets. |
| Bsi.Extractor.GetBausteinkategorien | tools/lib/BSI.py:131-153 | A filled cache is returned unchanged. Otherwise the cache becomes the dictionary of the headings' scan, and the result is that dictionary or the first heading's error. |
| Bsi.Extractor.GetGefaehrdungen | tools/lib/BSI.py:155-180 | A filled cache is returned unchanged. Otherwise the cache becomes the dictionary of the links' scan, and the result is that dictionary or the first error. |
| Bsi.Extractor.GetBausteineWithAnforderungen | tools/lib/BSI.py:182-266 | A filled cache is returned unchanged. Otherwise the cache holds every module stored before the first exception, and the result is the cache or that exception. |
| Bsi.Extractor.GetGefaehrdungenByAnforderung | tools/lib/BSI.py:268-305 | The result is the KRT lookup of the requirement in this edition's workbook; a TypeError before setup. |
| Convert.ParseLabel | tools/download_and_convert.py:86-94 | The regex `(.*)\s\((.*)\)`. It fails, with ValueError 'Anforderungstyp missing: ' + label, exactly when no whitespace-plus-`(` is later followed, past the `(`, by a `)`. Otherwise the title ends at the last such opening before the last `)`, and the type is the text between. |
| Convert.ParseLabelCompose | tools/download_and_convert.py:86-94 | `title (type)` parses back to (title, type) when the type holds no whitespace-plus-`(`. |
| Convert.RequirementTypeNeverBasis | tools/download_and_convert.py:96-126 | No requirement record is stored with the type 'Basis': a record's type id is the one the written classification looks up, and a type containing B gets the id of 'Standard'. |
| Convert.ClassifyTypeAsWrittenNeverBasis | tools/download_and_convert.py:96-101 | `ClassifyTypeAsWritten`: as written, the type is never 'Basis'. Any type containing B ends as 'Standard'. |
| Convert.ClassifyTypeAsWrittenOnB | tools/download_and_convert.py:96-101 | As written, type `B` becomes 'Standard'; corrected, it becomes 'Basis'. |
| Convert.ClassifyTypeFixesOnlyB | tools/download_and_convert.py:96-101 | The corrected classification differs from the written one exactly on types containing B. |
| Convert.ClassifyTypeNames | tools/download_and_convert.py:96-101 | `ClassifyType`, corrected: 'Basis' iff the type contains B; 'Standard' iff it contains S and no B; 'Hoch' iff it contains H and neither B nor S (letters compared case-insensitively). |
| Convert.RoleGroup | tools/download_and_convert.py:107-110 | The regex `.*\[(.*)]`. None exactly when no `[` is followed by a `]`. Otherwise the text between the last `]` and the last `[` before it. |
| Convert.RoleGroupCompose | tools/download_and_convert.py:107-110 | `title [roles]` yields the group `roles`, and cutting at ` [` gives back the title. |
| Convert.RoleEntries | tools/download_and_convert.py:114 | The split on commas outside parentheses has at least one entry. |
| Convert.RoleEntriesJoin | tools/download_and_convert.py:114 | Re-joining the entries with commas gives back the group. |
| Convert.RoleEntriesPlain | tools/download_and_convert.py:114 | Without parentheses the split is the plain comma split. |
| Convert.RoleEntriesCons | tools/download_and_convert.py:114 | A leading comma-free entry is split off, unless a `)` closes before any `(` in the rest. |
| Convert.RoleEntriesSingle | tools/download_and_convert.py:114 | Without a split point the group is a single entry. |
| Convert.GroupCommaKept | tools/download_and_convert.py:114 | A comma inside a parenthesised group does not split it. |
| Convert.RoleEntriesKeepGroup | tools/download_and_convert.py:114 | `a, b(x, y)` splits into `a` and `b(x, y)`. |
| Convert.GetOrCreateResult | tools/download_and_convert.py:24-37 | A candidate without the key field raises KeyError, and the table is unchanged. The table only grows, by at most one record. It grows exactly when no record has the candidate's value, and then the id is the old length and the record is that id updated with the candidate. Otherwise the id is `get_from_json`'s answer. |
| Convert.GetOrCreateDense | tools/download_and_convert.py:24-37 | On a table whose ids are positions, the call cannot fail. It returns the position of a record carrying the value, and ids stay positions. |
| Convert.GetOrCreateUnique | tools/download_and_convert.py:24-37 | A table without duplicate values of the key keeps that property. |
| Convert.GetOrCreateIdempotent | tools/download_and_convert.py:24-37 | Calling again with the same candidate returns the same id and changes nothing. |
| Convert.RequirementRecordFields | tools/download_and_convert.py:85-129 | `RequirementRecord`: a label without a type raises and leaves the roles untouched. A built record has the next id, the requirement's name, the title without the role group, the type table's id for the type as the written `if`s classify it (`ClassifyTypeAsWritten`), the module's id, and the role ids collected. |
| Convert.JsonTable.constructor | tools/download_and_convert.py:49-54 | A new table is empty. |
| Convert.JsonTable.GetOrCreate | tools/download_and_convert.py:24-37 | Returns the id, and leaves the table as `GetOrCreateResult` says. |
| Convert.JsonTable.Append | tools/download_and_convert.py:120-129 | The record is appended at the end. |
| Convert.CollectRoleIds | tools/download_and_convert.py:112-118 | The role loop equals the role fold: the ids it collects and the role table it leaves. |
| Convert.ConvertRequirement | tools/download_and_convert.py:85-129 | The record and the role table equal `RequirementRecord` of the old role table. |
| Convert.ConvertRequirementAt | tools/download_and_convert.py:83-129 | One step of the requirement loop equals one step of its fold over the four tables. |
| Convert.ConvertRequirements | tools/download_and_convert.py:83-129 | The requirement loop equals the fold of its step over the keys, stopping at the first exception. |
| Convert.ConvertModule | tools/download_and_convert.py:71-129 | The body for one module (role, module row, requirements in version order) equals `ModuleRun`. |
| Convert.ConvertModuleAt | tools/download_and_convert.py:70-129 | Converting the module stored under one version key equals one step of the module fold. |
| Convert.ConvertModules | tools/download_and_convert.py:70-129 | The module loop equals the module fold over the keys. |
| Convert.ConvertCategory | tools/download_and_convert.py:67-129 | One category iteration equals `CategoryRun`. |
| Convert.ConvertCatalogue | tools/download_and_convert.py:67-129 | The whole first phase equals the category fold over the categories in code-point order. |
| Convert.GoalIds | tools/download_and_convert.py:143-145 | The goal loop over the letters equals the goal fold. |
| Convert.LinkHazard | tools/download_and_convert.py:139-150 | One threat of one requirement equals `HazardRun`. |
| Convert.LinkHazardsOf | tools/download_and_convert.py:139-150 | The threat loop equals the threat fold over the dictionary, in its order. |
| Convert.LinkRequirement | tools/download_and_convert.py:137-150 | One requirement of the second phase equals `LinkRun`. |
| Convert.LinkAll | tools/download_and_convert.py:137-150 | The second phase equals the link fold over the requirement table. |
| Convert.BuildTables | tools/download_and_convert.py:48-152 | All six tables, built from empty, equal `ConvertCompendium` of the modules, edition and workbook, or its first exception. |
| Convert.ConvertDocuments | tools/download_and_convert.py:40-152 | `main`: the extractor's exception, or the tables of `ConvertCompendium` over the extracted modules and the loaded workbook. |
| Convert.RoleStepKeeps | tools/download_and_convert.py:114-118 | One role entry keeps the role table numbered, free of duplicate names, and the collected ids in range. |
| Convert.RoleIdsKeep | tools/download_and_convert.py:104-118 | The role ids of a requirement all refer to rows of the role table, which stays numbered and duplicate-free. |
| Convert.RequirementRecordKeeps | tools/download_and_convert.py:85-129 | A built requirement record refers to its module and to existing roles. |
| Convert.RequirementRunKeeps | tools/download_and_convert.py:83-129 | One requirement step keeps the four tables well-formed and never shrinks them. Well-formed means: ids equal positions, names are unique, and every reference points at an existing row. |
| Convert.AddModule | tools/download_and_convert.py:73-81 | Adding a module row keeps the tables well-formed, and returns an existing module id. |
| Convert.ModuleRunKeeps | tools/download_and_convert.py:71-129 | One module iteration keeps the tables well-formed and growing. |
| Convert.CategoryRunKeeps | tools/download_and_convert.py:67-129 | One category iteration keeps the tables well-formed and growing. |
| Convert.BuildCatalogueWellFormed | tools/download_and_convert.py:48-129 | `BuildCatalogue`: the first phase leaves well-formed tables, even when it stops at an exception. |
| Convert.HazardRunKeeps | tools/download_and_convert.py:139-150 | One threat keeps the threat table numbered and duplicate-free, and every association refers to an existing requirement and threat. |
| Convert.LinkRunKeeps | tools/download_and_convert.py:137-150 | One requirement of the second phase keeps the threat tables well-formed. |
| Convert.LinkHazardsWellFormed | tools/download_and_convert.py:137-152 | `LinkHazards`: over a numbered requirement table, the second phase leaves well-formed threat tables. |
| Convert.ConvertCompendiumWellFormed | tools/download_and_convert.py:40-152 | `ConvertCompendium`: every successful conversion yields tables whose ids are positions, whose names are unique and whose references all resolve. |
| Convert.GoalFoldIds | tools/download_and_convert.py:143-145 | The goal loop raises exactly when some letter is missing from the goal table. Otherwise it yields one id per letter, in order: the id of that letter's goal. |
| Convert.HazardRunAppends | tools/download_and_convert.py:139-150 | A threat that does not raise appends exactly one association. It links the requirement to the threat row of that name, with one goal id per letter. |
| Convert.HazardFoldAppends | tools/download_and_convert.py:139-150 | A requirement's threat loop that does not raise appends one association per threat, in dictionary order, each linking that threat. |
| Convert.LinkRunAppends | tools/download_and_convert.py:137-150 | A requirement that does not raise has a string name whose KRT lookup succeeds, and gets one association per threat of that lookup, in order. |
| Convert.RequirementRunAppends | tools/download_and_convert.py:83-129 | One requirement step leaves categories and modules alone. When it does not raise, the key is present and exactly one record is appended, naming that requirement and its module. |
| Convert.RequirementFoldAppends | tools/download_and_convert.py:83-129 | The requirement loop leaves categories and modules alone. When it finishes, it has appended one record per key, in key order, naming that requirement and its module. |
| Convert.ModuleFoldAppends | tools/download_and_convert.py:83-129 | Each appended requirement record refers to the module row of its module's name. |
| Convert.ModuleRunAppends | tools/download_and_convert.py:70-129 | A module iteration that does not raise had version-sortable keys. It appended that module's requirements in version order, each linked to the module's row. |
| Convert.RoleStepNames | tools/download_and_convert.py:114-118 | One role entry never raises, and adds one id: that of the role named by the stripped entry. |
| Convert.RoleFoldNames | tools/download_and_convert.py:114-118 | The role loop yields one id per entry, in order, each naming the role of that stripped entry. |
| Convert.RoleIdsNames | tools/download_and_convert.py:103-118 | Without a role group the requirement gets the module's role and the role table is unchanged. With a group, it gets one role per entry of the group, named by the stripped entry. |

## Left out

- Downloading, unzipping, `pdftohtml`, reading HTML, XPath and pandas are not modelled. Their outputs are inputs here: link texts, paragraph texts, heading texts, and sheets of string cells.
- `tools/BSI.py` and `tools/data.py` are not part of this model. They are an older extractor and a data helper outside the conversion path.
- `save_json` writes each table to disk after every insertion. The model keeps one list per table and treats the file as equal to it, so `get_from_json` on a file is `Lookup` on that list. The partial files left behind when the program raises are not modelled.
- `json.dumps` is not modelled. An encoded record is an opaque string, and only the framing around the records is modelled.
- The goal (`schutzziel`) and type (`anforderungstyp`) tables are only read, never written. They are parameters.
- Exception message texts are simplified: the ValueError of `get_from_json` names only the attribute, not the value and the file name.
- `str.upper` and `str.lower` follow the Latin-1 case mapping only, where `ß` upper-cases to `SS`. The rest of Unicode case mapping is not modelled.
- Content pages are modelled as lists of paragraph texts. Each paragraph is its first text node, which is what the `text()` queries select.
- ParseLabel: labels are space-joined tokens, so they hold no line break. The regex `.` is modelled as matching every character.
- Order.ParseRelease: `parse_version` is modelled for dotted decimal releases only, as the `packaging` versions behind setuptools 66 and later parse them. Anything else raises the ValueError of an invalid version; its subclass `InvalidVersion` is not distinguished. PEP 440 pre-, post- and dev-releases, epochs and local versions are not modelled. setuptools before 66 fell back to a `LegacyVersion` instead of raising; that fallback is not modelled.
- Bsi.KrtRow: the threat columns are paired with the row's cells by position, from the fourth cell on, exactly as written. This is exact only when no non-`G` column follows the third one (Bsi.KrtPairingAligned).
- Convert.LinkRun: a requirement record whose `name` is not a string raises a TypeError. The records the first phase builds always carry string names.
- The classes `BSI` and `BSI2022` are one class with an edition field. Only the version constant and the `APP.4.3.A24` branch differ between them in the modelled code.
- Aliasing between the six tables is excluded by a precondition: they are distinct objects, as in `main`.

## Findings

| source | as written | input that shows it | evidently intended | confidence | as-written member | corrected member |
|---|---|---|---|---|---|---|
| tools/download_and_convert.py:96-101 | Three independent `if`s overwrite the type in turn. After `'B'` sets it to `'Basis'`, the next test finds `'S'` in `'BASIS'` and overwrites it with `'Standard'`, so no requirement is ever classified as Basis. | requirement type `B` (label `... (B)`) | An `elif`-like choice: a type containing B is 'Basis', else one containing S is 'Standard', else one containing H is 'Hoch'. | high, not executed | Convert.ClassifyTypeAsWritten (Convert.ClassifyTypeAsWrittenOnB, Convert.ClassifyTypeAsWrittenNeverBasis) | Convert.ClassifyType (Convert.ClassifyTypeNames, Convert.ClassifyTypeFixesOnlyB) |
