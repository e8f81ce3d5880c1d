# wcvpy name resolution, modelled in Dafny

This project models the core of `wcvpy`, a library that resolves plant names
submitted by a user against the World Checklist of Vascular Plants (WCVP). A
noisy submitted name is taken to at most one checklist record. The library
then reports that record's accepted name, IPNI id, rank, family and species.
The model covers three parts:

- the **name normalisers**: genus and species extraction, trimming,
  recapitalisation and IPNI URN-prefix removal;
- the **checklist derivation**: the accepted and parent information of every
  row, the accepted-species rule, and the filters applied to an
  already-parsed checklist;
- the **resolution engine**:
  - direct matching by exact name, or by name and author in the newest
    generation;
  - the family-hint filter;
  - priority resolution by taxonomic status and rank;
  - the ladder that picks one of several name-matching-service hits;
  - containment-based auto-resolution;
  - resolution of OpenRefine reconciliation matches;
  - the staged orchestrators that join one result onto every caller row.

Three generations of the code coexist, and their priority lists and guards
differ. The oldest is `automatchnames`, then `wcvp_name_matching`, then
`wcvpy`. Each source file is its own module and the generations are not
unified:

| module | source file |
|---|---|
| `TopLevelStrings` | `string_utils.py` |
| `NameMatchingStrings` | `wcvp_name_matching/string_utils.py` |
| `AutomatchnamesStrings` | `automatchnames/string_utils.py` |
| `TaxaLists` | `taxa_lists/get_taxa_from_wcvp.py` |
| `WcvpDownload` | `wcvp_download/get_taxa_from_wcvp.py` |
| `WcvpyDownload` | `wcvpy/wcvp_download/get_taxa_from_wcvp.py` |
| `WcvpyMatching` | `wcvpy/wcvp_name_matching/wcvp_matching.py` |
| `WcvpyOpenrefine` | `wcvpy/wcvp_name_matching/resolve_openrefine_matches.py` |
| `WnmMatching` | `wcvp_name_matching/wcvp_matching.py` |
| `WnmGeneralUtils` | `wcvp_name_matching/general_matching_utils.py` |
| `WnmAcceptedInfo` | `wcvp_name_matching/get_accepted_info.py` |
| `AmnMatching` | `automatchnames/wcvp_matching.py` |
| `AmnResolvingNames` | `automatchnames/resolving_names.py` |
| `AmnAcceptedInfo` | `automatchnames/get_accepted_info.py` |

Three helper modules hold what the others share:

- `Common` holds `Option`, `Result` and `PyVal`, plus Python's string
  primitives: `strip`, `split`, `partition`, `in` and ASCII case mapping.
- `Frames` holds the pandas row operations:
  - boolean-mask filtering;
  - `drop_duplicates` with `keep='first'` and with `keep=False`;
  - sort-then-deduplicate, kept as "a minimal row per key";
  - left and inner merges, `isin`, `groupby` counts and `concat`.
- `Checklist` holds the WCVP row types.

How the Python is modelled:

- A DataFrame is a sequence of rows, and a missing cell is `None`.
- A Python exception is the `Err` case of a `Result` that names the
  exception class.
- Pipelines of filters and merges are functions. Loops that grow a frame or
  thread it through stages are methods with loop invariants, each proved
  against the function that specifies it.

## Model

| member | source | states |
|---|---|---|
| TopLevelStrings.RemoveWhitespaceAtBeginningAndEnd | string_utils.py:35-40 | text comes back with no leading or trailing whitespace; a non-string raises (`Err`), since the function has no guard |
| TopLevelStrings.TrimmedGenus | string_utils.py:9-14 | the genus is a prefix of the trimmed name: its first space-delimited token, or `'× '` followed by the first token after it |
| TopLevelStrings.GetGenusFromFullName | string_utils.py:6-17 | a non-string (None) is returned unchanged via the caught error; text gives a prefix of the stripped name that is its first token, or `'× '` plus the next token |
| TopLevelStrings.GetSpeciesFromFullName | string_utils.py:20-32 | non-strings are returned unchanged and text always yields text (the empty-genus `partition('')` `ValueError` becomes `''`) |
| TopLevelStrings.SingleWordHasNoSpecies | string_utils.py:20-32 | a name with no space after trimming has the empty species |
| TopLevelStrings.GenusOfOneToken | string_utils.py:6-14 | a leading space is trimmed and a single non-hybrid token is its own genus |
| TopLevelStrings.TwoWordSpecies | string_utils.py:6-32 | for `'G sp'` the genus is `G` and the species is `sp` |
| TopLevelStrings.HybridGenusOf | string_utils.py:10-12 | `'× G rest'` has genus `'× G'` |
| TopLevelStrings.HybridGenusSpecies | string_utils.py:10-29 | `'× G sp'` has genus `'× G'` and species `sp` |
| TopLevelStrings.SpeciesIsSecondToken | string_utils.py:6-32 | for every name whose trimmed text is a genus token (not the bare `×`), a space, a token `w`, then nothing or a space and anything, and whatever whitespace surrounds it: the genus is that first token and the species is `w` (unless `w` is a bare `×` followed by more text, which starts a hybrid epithet) |
| TopLevelStrings.HybridSpeciesIsSecondToken | string_utils.py:6-32 | for every name whose trimmed text is `'× G w rest'` with `G` and `w` tokens and `rest` empty or starting with a space: the genus is `'× G'` and the species is `w` |
| TopLevelStrings.CleanUrnIds | string_utils.py:43-54 | non-strings unchanged; the text after the first regex match of the URN pattern (dots match any character); NaN when there is no match |
| TopLevelStrings.CleanUrnIdsOfUrn | string_utils.py:47-50 | an id written as `urn:lsid:ipni.org:names:<id>` comes back as `<id>` |
| TopLevelStrings.CleanUrnIdsOfShortText | string_utils.py:51-52 | a text too short to hold the prefix becomes NaN, not itself |
| NameMatchingStrings.RemoveWhitespaceAtBeginningAndEnd | wcvp_name_matching/string_utils.py:59-65 | a non-string is returned unchanged (caught `AttributeError`); text comes back as a slice of itself with no whitespace at either end |
| NameMatchingStrings.TrimmedGenus | wcvp_name_matching/string_utils.py:29-38 | `ValueError` exactly when the trimmed name starts with a hybrid character not followed by a space; otherwise a prefix of the name: its first token, or hybrid character, space and the next token |
| NameMatchingStrings.GetGenusFromFullName | wcvp_name_matching/string_utils.py:26-41 | non-strings (None, NaN) unchanged; for text, the `ValueError` case above, else the first token of the trimmed name or `'× '`/`'+ '` plus the next token (`'x '` → `'x'`, `'× Sarcorhiza Anon.'` → `'× Sarcorhiza'`) |
| NameMatchingStrings.GetSpeciesFromFullName | wcvp_name_matching/string_utils.py:44-56 | non-strings unchanged; text gives text: the genus extraction of what follows the first occurrence of the genus |
| NameMatchingStrings.SingleWordHasNoSpecies | wcvp_name_matching/string_utils.py:44-53 | a single-word name (no hybrid lead) has species `''` |
| NameMatchingStrings.TwoWordSpecies | wcvp_name_matching/string_utils.py:26-53 | `'G sp'` has genus `G` and species `sp` |
| NameMatchingStrings.SpeciesIsSecondToken | wcvp_name_matching/string_utils.py:26-56 | for every name whose trimmed text is a genus token and a token `w` (neither led by a hybrid character), separated by a space, then nothing or a space and anything, and whatever whitespace surrounds it: the genus is the first token and the species is `w`, with no error |
| NameMatchingStrings.HybridSpeciesIsSecondToken | wcvp_name_matching/string_utils.py:26-56 | for every name whose trimmed text is a hybrid character, a space, a token `G`, a space, a token `w` not led by a hybrid character, then nothing or a space and anything: the genus is the hybrid character, a space and `G`, and the species is `w` |
| NameMatchingStrings.HybridPrefix | wcvp_name_matching/string_utils.py:77-80 | the kept prefix is a prefix of the name, at most hybrid character plus space |
| NameMatchingStrings.CapitalizeFirstLetterOfTaxon | wcvp_name_matching/string_utils.py:68-89 | non-strings unchanged; a leading hybrid character and space are kept at the front of the result |
| NameMatchingStrings.LowerCapitaliseWord | wcvp_name_matching/string_utils.py:84-85 | capitalising an author abbreviation changes letter case only |
| NameMatchingStrings.RecapitaliseWordsLower | wcvp_name_matching/string_utils.py:81-87 | lower-casing, splitting, capitalising the first word and the `.`-ended non-infraspecific words, and re-joining changes letter case only |
| NameMatchingStrings.HybridPrefixIgnoresCase | wcvp_name_matching/string_utils.py:77-80 | names equal up to case have the same hybrid prefix |
| NameMatchingStrings.CapitalizeFirstLetterOfTaxonLower | wcvp_name_matching/string_utils.py:68-87 | recapitalisation changes letter case only: the lower-cased result equals the lower-cased input |
| NameMatchingStrings.CapitalizeFirstLetterOfTaxonIdempotent | wcvp_name_matching/string_utils.py:68-89 | recapitalising twice gives the same as once |
| NameMatchingStrings.CapitalizeFirstLetterOfTaxonWords | wcvp_name_matching/string_utils.py:76-87 | word by word: the text after any hybrid prefix is lower-cased and split on single spaces; the result after the prefix, split the same way, has exactly as many words, the first capitalised, each other word capitalised when it ends in `.` and is not an infraspecific marker, and left lower case otherwise |
| NameMatchingStrings.NameColumns.constructor | wcvp_name_matching/string_utils.py:92 | a frame holding the submitted name column and no derived columns yet |
| NameMatchingStrings.NameColumns.TidyNamesInColumn | wcvp_name_matching/string_utils.py:92-95 | the original column is copied to `submitted_name_col_id`, the name column is trimmed in place, and `recap_name_col` holds the recapitalised trimmed names |
| NameMatchingStrings.CleanUrnIds | wcvp_name_matching/string_utils.py:98-110 | non-strings unchanged; text with a regex match of the URN pattern loses everything up to the end of the first match; text without one is returned unchanged |
| NameMatchingStrings.CleanUrnIdsOfUrn | wcvp_name_matching/string_utils.py:104-106 | `urn:lsid:ipni.org:names:<id>` gives `<id>` |
| AutomatchnamesStrings.HybridPrefix | automatchnames/string_utils.py:57-59 | the recognised prefix is `'× '` when the text starts with it, else empty; always a prefix of the text |
| AutomatchnamesStrings.RemoveWhitespaceAtBeginningAndEnd | automatchnames/string_utils.py:44-48 | text is stripped at both ends; there is no guard, so a non-string raises (`Err`) |
| AutomatchnamesStrings.TrimmedGenus | automatchnames/string_utils.py:18-23 | a prefix of the trimmed name: its first token, or `'× '` plus the next token |
| AutomatchnamesStrings.GetGenusFromFullName | automatchnames/string_utils.py:15-26 | non-strings unchanged (the caught error); text gives the first token of the trimmed name, or `'× '` plus the next token |
| AutomatchnamesStrings.GetSpeciesFromFullName | automatchnames/string_utils.py:29-41 | non-strings unchanged; text gives the genus extraction of the text after the first occurrence of the genus |
| AutomatchnamesStrings.SingleWordHasNoSpecies | automatchnames/string_utils.py:29-38 | a single-word name has species `''` |
| AutomatchnamesStrings.GenusOfOneToken | automatchnames/string_utils.py:15-23 | a leading space is trimmed and a single token is its own genus |
| AutomatchnamesStrings.TwoWordSpecies | automatchnames/string_utils.py:15-38 | `'G sp'` has genus `G` and species `sp` |
| AutomatchnamesStrings.HybridGenusOf | automatchnames/string_utils.py:19-21 | `'× G rest'` has genus `'× G'` |
| AutomatchnamesStrings.HybridGenusSpecies | automatchnames/string_utils.py:19-38 | `'× G sp'` has genus `'× G'` and species `sp` |
| AutomatchnamesStrings.SpeciesIsSecondToken | automatchnames/string_utils.py:15-41 | for every name whose trimmed text is a genus token (not the bare `×`), a space, a token `w`, then nothing or a space and anything, and whatever whitespace surrounds it: the genus is that first token and the species is `w` (unless `w` is a bare `×` followed by more text) |
| AutomatchnamesStrings.HybridSpeciesIsSecondToken | automatchnames/string_utils.py:15-41 | for every name whose trimmed text is `'× G w rest'` with `G` and `w` tokens and `rest` empty or starting with a space: the genus is `'× G'` and the species is `w` |
| AutomatchnamesStrings.CapitalizeFirstLetterOfTaxon | automatchnames/string_utils.py:50-68 | non-strings unchanged, text gives text; with `check_string_is_uppercase` a text that is not all upper case is returned unchanged |
| AutomatchnamesStrings.CapitalizedShape | automatchnames/string_utils.py:60-66 | `lower().capitalize()` changes case only: first character not lower case, all others not upper case |
| AutomatchnamesStrings.RecapOutcome | automatchnames/string_utils.py:52-66 | the result is the input, or the text after the `'× '` prefix when that has more than one space, or prefix + `capitalize()` of the rest when it has at most one |
| AutomatchnamesStrings.RewrittenShape | automatchnames/string_utils.py:56-66 | prefix + capitalised rest differs from the text in letter case only, first letter after the prefix upper, the rest lower |
| AutomatchnamesStrings.CapitalizeFirstLetterOfTaxonCases | automatchnames/string_utils.py:50-68 | the three outcomes, with the rewritten one described by its letter case rather than by the body |
| AutomatchnamesStrings.CountCharIgnoresCase | automatchnames/string_utils.py:60-62 | names equal up to case have the same number of spaces |
| AutomatchnamesStrings.RecapOfRecapitalised | automatchnames/string_utils.py:56-66 | a text already in recapitalised form, with at most one space after its prefix, is left as it is |
| AutomatchnamesStrings.CapitalizeFirstLetterOfTaxonIdempotent | automatchnames/string_utils.py:50-68 | with at most one space after the prefix, recapitalising twice gives the same as once |
| AutomatchnamesStrings.NameColumn.constructor | automatchnames/string_utils.py:70 | a frame holding the given name column |
| AutomatchnamesStrings.NameColumn.TidyNamesInColumn | automatchnames/string_utils.py:70-72 | the column is overwritten with its recapitalised values (upper-case-only mode), then with their trimmed values; a non-string cell makes the trim raise after the first overwrite |
| AutomatchnamesStrings.RecapitaliseColumn | automatchnames/string_utils.py:71 | the column with each value recapitalised in upper-case-only mode |
| AutomatchnamesStrings.TrimColumn | automatchnames/string_utils.py:72 | succeeds exactly when every value is text, then trims each |
| AutomatchnamesStrings.Tidied | automatchnames/string_utils.py:70-72 | one tidied name: text exactly when the input is text |
| AutomatchnamesStrings.TidyColumnElementwise | automatchnames/string_utils.py:70-72 | the column tidy succeeds iff all values are text, and then tidies each name on its own |
| AutomatchnamesStrings.CleanUrnIds | automatchnames/string_utils.py:74-86 | non-strings unchanged; text after the first regex match of the URN pattern; text without a match unchanged |
| AutomatchnamesStrings.CleanUrnIdsOfUrn | automatchnames/string_utils.py:80-82 | `urn:lsid:ipni.org:names:<id>` gives `<id>` |
| TaxaLists.CapitalizeFirstLetterOfRank | taxa_lists/get_taxa_from_wcvp.py:16-22 | non-strings unchanged; text keeps its length and letters up to case, with the first character upper and every other lower |
| TaxaLists.CapitalizeFirstLetterOfRankIgnoresCase | taxa_lists/get_taxa_from_wcvp.py:16-20 | ranks equal up to case normalise to the same value |
| TaxaLists.CapitalizeFirstLetterOfRankIdempotent | taxa_lists/get_taxa_from_wcvp.py:16-22 | normalising a rank twice gives the same as once |
| TaxaLists.FixRow | taxa_lists/get_taxa_from_wcvp.py:29-32 | an `Accepted` row gets `accepted_kew_id = kew_id` and `accepted_name = taxon_name`; every other row is unchanged, and no other column changes |
| TaxaLists.FixColumns | taxa_lists/get_taxa_from_wcvp.py:25-34 | a new frame of the same length, row by row `FixRow`; the input is a value and so stays as it was (the deep copy) |
| TaxaLists.FixColumnsIdempotent | taxa_lists/get_taxa_from_wcvp.py:25-34 | repairing twice changes nothing more |
| TaxaLists.FixColumnsSelfAccepted | taxa_lists/get_taxa_from_wcvp.py:27-32 | after the repair every accepted row names itself as its accepted taxon |
| TaxaLists.EarlyFilters | taxa_lists/get_taxa_from_wcvp.py:57-61 | keeps exactly the rows whose own family is listed (when families are given) and, with `accepted`, whose status is `Accepted`, in their checklist order |
| TaxaLists.LateFilters | taxa_lists/get_taxa_from_wcvp.py:65-69 | keeps exactly the rows whose rank is listed (when ranks are given) and whose status is not `Unplaced`, in their order |
| TaxaLists.NormaliseRanks | taxa_lists/get_taxa_from_wcvp.py:63 | each row with its rank normalised, nothing else changed |
| TaxaLists.GetAllTaxa | taxa_lists/get_taxa_from_wcvp.py:56-76 | the result holds exactly the repaired, rank-normalised rows of the read checklist that pass the family, accepted, normalised-rank and not-`Unplaced` filters, in their checklist order |
| WcvpDownload.CleanWhitespaces | wcvp_download/get_taxa_from_wcvp.py:60-66 | a null comes back as it is; text comes back trimmed with every whitespace run collapsed to one space; any other value raises |
| WcvpDownload.CleanWhitespacesWords | wcvp_download/get_taxa_from_wcvp.py:60-66 | cleaning text keeps its `split()` words in order, and the cleaned text is the only collapsed text with those words |
| WcvpDownload.CleanWhitespacesIdempotent | wcvp_download/get_taxa_from_wcvp.py:60-66 | cleaning an already cleaned value gives it back unchanged |
| WcvpDownload.NameWithAuthor | wcvp_download/get_taxa_from_wcvp.py:80-82 | the name-with-author is missing exactly when the name is missing |
| WcvpDownload.NameWithoutAuthor | wcvp_download/get_taxa_from_wcvp.py:80-82 | a cleaned name with missing or empty authors is its own name-with-author (the trailing separator is stripped) |
| WcvpDownload.NameAndAuthor | wcvp_download/get_taxa_from_wcvp.py:80-82 | a cleaned non-empty name and cleaned non-empty authors are joined by exactly one space |
| WcvpDownload.ParentsJoined | wcvp_download/get_taxa_from_wcvp.py:97-114 | with unique `plant_name_id`s the right merge keeps every accepted row once and in order; a row whose parent is in the checklist carries that parent's name, name-with-author, IPNI id and rank, and a row whose parent is absent carries nothing |
| WcvpDownload.AcceptedJoined | wcvp_download/get_taxa_from_wcvp.py:69-94 | with unique accepted ids the right merge keeps every checklist row once and in order; a row whose `accepted_plant_name_id` names an accepted row carries that row's accepted columns, and any other row carries none |
| WcvpDownload.GetSpeciesNamesAndIpniIds | wcvp_download/get_taxa_from_wcvp.py:117-149 | the column-by-column `np.where` writes leave every other column alone and give each row the accepted parent's species columns when the parent is a species, the accepted taxon's own when it is a species, and missing values otherwise |
| WcvpDownload.AcceptedRowIsOwnAccepted | wcvp_download/get_taxa_from_wcvp.py:246-257 | parsing keeps one row per checklist row; an `Accepted` row that names itself as accepted reports its own IPNI id, name, family and rank as the accepted ones |
| WcvpDownload.FilteredIdsUnique | wcvp_download/get_taxa_from_wcvp.py:251-252 | restricting the checklist to the accepted rows keeps `plant_name_id`s unique |
| WcvpDownload.EarlyFilters | wcvp_download/get_taxa_from_wcvp.py:263-281 | raises exactly when a named genus or species is not in the checklist; otherwise keeps exactly the rows whose status is not dropped (`Local Biotype` by default), whose genus and species are among those named, and which are `Accepted` when only accepted rows are asked for, in their order, as a sub-multiset of the input |
| WcvpDownload.GetAllTaxaFilters | wcvp_download/get_taxa_from_wcvp.py:263-307 | raises exactly when a named genus, species, specific taxon or family is not in the checklist or a named rank is not one of the 33 known ranks; otherwise keeps exactly the rows that pass every restriction, a family restriction accepting the row's own or its accepted family, in their order, as a sub-multiset of the input |
| WcvpDownload.CleanedTable | wcvp_download/get_taxa_from_wcvp.py:246-249 | with `clean_strings` every name of the table is whitespace-collapsed, ids, ranks and statuses are untouched and a name is present exactly when it was; without it the table is unchanged |
| WcvpDownload.GetAllTaxa | wcvp_download/get_taxa_from_wcvp.py:246-307 | cleans the matching columns when asked, derives the accepted and species columns, checks the list arguments against the cleaned table and keeps exactly the parsed rows passing every restriction, in their order |
| WcvpyDownload.FixBrackets | wcvpy/wcvp_download/get_taxa_from_wcvp.py:69-71 | the author repair keeps a collapsed string collapsed, and its result is exactly the input with every space before a closing bracket dropped (so the `'. )'` replacement adds nothing to the `' )'` one) |
| WcvpyDownload.CleanWhitespacesInNames | wcvpy/wcvp_download/get_taxa_from_wcvp.py:62-74 | a null or any non-text value comes back as it is (the `AttributeError` is caught); text comes back as its whitespace-collapsed form with every space before a closing bracket dropped |
| WcvpyDownload.CleanWhitespacesInNamesWords | wcvpy/wcvp_download/get_taxa_from_wcvp.py:62-74 | the cleaned name is any collapsed text with the `split()` words of the input, with the spaces before a closing bracket dropped: the words are kept in order except that a bracket no longer stands apart |
| WcvpyDownload.CleanWhitespacesInNamesIdempotent | wcvpy/wcvp_download/get_taxa_from_wcvp.py:62-74 | cleaning a cleaned value changes nothing |
| WcvpyDownload.CleanBlank | wcvpy/wcvp_download/get_taxa_from_wcvp.py:62-72 | text made only of whitespace cleans to the empty string |
| WcvpyDownload.CleanedTable | wcvpy/wcvp_download/get_taxa_from_wcvp.py:291-294 | cleaning the direct-matching columns keeps one row per checklist row |
| WcvpyDownload.CleanedTableKeepsKeys | wcvpy/wcvp_download/get_taxa_from_wcvp.py:49-52 | cleaning touches only the six direct-matching columns: ids, IPNI ids, ranks, statuses and species epithets stay as they were, a name is present exactly when it was, and every cleaned name is collapsed with no space before a closing bracket |
| WcvpyDownload.CleanedTableUniqueIds | wcvpy/wcvp_download/get_taxa_from_wcvp.py:291-294 | cleaning keeps `plant_name_id`s unique |
| WcvpyDownload.CleanedNameWithoutAuthor | wcvpy/wcvp_download/get_taxa_from_wcvp.py:77-80 | on a cleaned table a name without authors is its own name-with-author |
| WcvpyDownload.WcvpZipFileName | wcvpy/wcvp_download/get_taxa_from_wcvp.py:162-175 | raises exactly when both the newest checklist and a fixed version are asked for; a given version is part of the archive file name |
| WcvpyDownload.WcvpZipFileNameInjective | wcvpy/wcvp_download/get_taxa_from_wcvp.py:166-172 | two requests read the same archive file only if both or neither give a version, and then the same version |
| WcvpyDownload.EarlyFilters | wcvpy/wcvp_download/get_taxa_from_wcvp.py:304-322 | raises exactly when a named genus or species is not in the checklist; otherwise keeps exactly the rows whose status is not dropped (`Local Biotype` by default), whose genus and species are among those named, and which are `Accepted` when only accepted rows are asked for, in their order, as a sub-multiset of the input |
| WcvpyDownload.FilterFamiliesFromDf | wcvpy/wcvp_download/get_taxa_from_wcvp.py:239-247 | no families leaves the table unchanged; raises exactly when a named family is not the own family of some row of this table; otherwise keeps exactly the rows whose own or accepted family is named, in their order, as a sub-multiset |
| WcvpyDownload.FiltersBeforeFamilies | wcvpy/wcvp_download/get_taxa_from_wcvp.py:304-341 | raises exactly when a named genus, species or specific taxon is not in the checklist or a named rank is not one of the 33 known ranks; otherwise keeps exactly the rows passing every restriction, a rank restriction accepting the row's own or its accepted rank, in their order |
| WcvpyDownload.FamilyInRowsLeft | wcvpy/wcvp_download/get_taxa_from_wcvp.py:239-243 | a family is in the filtered table exactly when some parsed row passing the earlier restrictions has it as its own family |
| WcvpyDownload.GetAllTaxaFilters | wcvpy/wcvp_download/get_taxa_from_wcvp.py:304-343 | raises exactly when an earlier restriction is invalid or a named family is not the own family of a row left by the earlier restrictions; otherwise keeps exactly the rows passing every restriction, in their order, as a sub-multiset |
| WcvpyDownload.GetAllTaxa | wcvpy/wcvp_download/get_taxa_from_wcvp.py:291-343 | cleans the matching columns when asked, derives the accepted and species columns of every row, and then raises or keeps exactly as the filters above do, over the cleaned and parsed table, keeping its order |
| WcvpyMatching.LookupIpniIdInWcvp | wcvpy/wcvp_name_matching/wcvp_matching.py:12-31 | the rows returned are checklist rows, each at most as often as in the checklist, and each carries the cleaned id as its IPNI id |
| WcvpyMatching.LookupUrnId | wcvpy/wcvp_name_matching/wcvp_matching.py:20-23 | an id given as an IPNI URN is looked up by the bare id `clean_urn_ids` extracts: exactly the checklist rows carrying that id are returned |
| WcvpyMatching.LookupPlainId | wcvpy/wcvp_name_matching/wcvp_matching.py:20-23 | text without the URN prefix is looked up as it is: exactly the checklist rows carrying it are returned |
| WcvpyMatching.TidiedValueIsClean | wcvpy/wcvp_name_matching/wcvp_matching.py:46-50 | a tidied value is collapsed with no space before a closing bracket, and it is the `split()` words of the lower-cased text without full stops, joined by single spaces, with the spaces before a closing bracket dropped |
| WcvpyMatching.TidyIgnoresCase | wcvpy/wcvp_name_matching/wcvp_matching.py:46-50 | tidying a lower-cased value gives the same as tidying the value: direct matching ignores case |
| WcvpyMatching.MergeOnKeyMembership | wcvpy/wcvp_name_matching/wcvp_matching.py:65-67 | the left merge followed by `dropna` on the WCVP id holds exactly the pairs of a submission and a checklist row with a WCVP id whose tidied texts agree, each with the row's name and columns as matched name |
| WcvpyMatching.NotMatchedInMerge | wcvpy/wcvp_name_matching/wcvp_matching.py:69 | a submission is left out of a merge by `isin` exactly when no checklist row with the columns filled matches it |
| WcvpyMatching.ConcatenatedColumnsGroups | wcvpy/wcvp_name_matching/wcvp_matching.py:53-91 | every submission falls into exactly one group: matched as given, with all its matches; otherwise matched with tidied authors, with all of those; otherwise returned as unmatched |
| WcvpyMatching.FirstStepFrom | wcvpy/wcvp_name_matching/wcvp_matching.py:109-143 | the seven steps are tried in order: the result is the first step from `k` on that matches the submission, or 7 when none does |
| WcvpyMatching.AttemptSteps | wcvpy/wcvp_name_matching/wcvp_matching.py:111-131 | each author attempt is two steps on the same columns, as given then with tidied authors, both tagged `direct_wcvp_w_author` |
| WcvpyMatching.AttemptGroup | wcvpy/wcvp_name_matching/wcvp_matching.py:111-131 | for a submission no earlier attempt matched, its group on an attempt says whether its first matching step is the attempt's first step, its second step, or a later one |
| WcvpyMatching.AttemptRow | wcvpy/wcvp_name_matching/wcvp_matching.py:111-131 | run on the submissions no earlier attempt matched, an author attempt yields exactly the candidates of the submissions whose first matching step is one of its two steps, with that step's tag and matched name |
| WcvpyMatching.AttemptLeaves | wcvpy/wcvp_name_matching/wcvp_matching.py:111-131 | an author attempt leaves unmatched exactly the submissions that no step up to it matches |
| WcvpyMatching.BareNameRow | wcvpy/wcvp_name_matching/wcvp_matching.py:133-142 | the bare-name merge on the submissions no author attempt matched yields exactly the candidates of the submissions whose first match is the bare name, tagged `direct_wcvp` with the taxon name as matched name |
| WcvpyMatching.MergedWithWcvpMembership | wcvpy/wcvp_name_matching/wcvp_matching.py:109-144 | the concatenated candidates are exactly the matches of each submission's first matching step, with that step's tag and matched name; a submission no step matches has none |
| WcvpyMatching.GetFamilySpecificResolutions | wcvpy/wcvp_name_matching/wcvp_matching.py:34-43 | without a family column the rows are returned as they are; with one, exactly the rows whose hint is missing or equals the candidate's family or accepted family, as a sub-multiset |
| WcvpyMatching.CandidatesMembership | wcvpy/wcvp_name_matching/wcvp_matching.py:144-145 | a candidate is a match of its submission's first matching step that the family hint admits; a submission whose first-step matches the hint all rejects gets none, even when a later step would match |
| WcvpyMatching.BestLabelledKeys | wcvpy/wcvp_name_matching/wcvp_matching.py:155-160 | after sorting by status and `drop_duplicates` the result has one row per submission id, and an id has a row exactly when it has a candidate |
| WcvpyMatching.BestLabelledChosen | wcvpy/wcvp_name_matching/wcvp_matching.py:150-160 | each row is a candidate whose status ranks no worse in the priority list than any other candidate of its submission, with `_unique` appended to `matched_by` exactly when it was its submission's only candidate |
| WcvpyMatching.GetWcvpInfoForNamesInColumn | wcvpy/wcvp_name_matching/wcvp_matching.py:94-162 | raises `AttributeError` exactly when a checklist row has no taxon name (tidying a missing name); otherwise raises `ValueError` exactly when a candidate's status is not in the priority list; otherwise one row per submission id with a candidate, each a best-status candidate labelled as above |
| WcvpyOpenrefine.Survivors | wcvpy/wcvp_name_matching/resolve_openrefine_matches.py:21-29 | the rows kept for resolution are a sub-multiset of the looked-up rows |
| WcvpyOpenrefine.SurvivorsMembership | wcvpy/wcvp_name_matching/resolve_openrefine_matches.py:21-29 | exactly the rows with a status whose own or accepted family is of interest (when families are given) go on to resolution |
| WcvpyOpenrefine.ResolveOpenrefineToBestMatches | wcvpy/wcvp_name_matching/resolve_openrefine_matches.py:10-70 | raises `ValueError` exactly when some (reco id, submitted name) pair is repeated; otherwise raises exactly as the IPNI-id lookup of the reconciled frame raises (its `ValueError` for ids repeated in the checklist is passed on unchanged); otherwise the four tagged groups of the surviving looked-up rows, with the top-score step corrected (see Findings) |
| WcvpyOpenrefine.ProblemsIffRepeated | wcvpy/wcvp_name_matching/resolve_openrefine_matches.py:12-16 | `duplicated(keep=False)` flags some row exactly when the keys are not unique |
| WcvpyOpenrefine.NonUniqueRecoMembership | wcvpy/wcvp_name_matching/resolve_openrefine_matches.py:35 | the non-unique stage holds exactly the rows whose submitted name occurs more than once |
| WcvpyOpenrefine.SingleAcceptedSound | wcvpy/wcvp_name_matching/resolve_openrefine_matches.py:37-43 | a row kept for a single accepted name is the first row of a repeated name all of whose rows share one accepted IPNI id |
| WcvpyOpenrefine.TwoAcceptedIdsRepeat | wcvpy/wcvp_name_matching/resolve_openrefine_matches.py:38-42 | two rows of a repeated name with different accepted IPNI ids leave that name at least twice after deduplication on (name, accepted id), so it is not settled there |
| WcvpyOpenrefine.SingleAcceptedComplete | wcvpy/wcvp_name_matching/resolve_openrefine_matches.py:37-43 | the first row of a repeated name whose rows share one accepted IPNI id is kept by the single-accepted stage |
| WcvpyOpenrefine.SingleAcceptedMembership | wcvpy/wcvp_name_matching/resolve_openrefine_matches.py:37-43 | a row is in the single-accepted stage exactly when it is the first row of a repeated name whose rows share one accepted IPNI id |
| WcvpyOpenrefine.SingleAcceptedKey | wcvpy/wcvp_name_matching/resolve_openrefine_matches.py:37-43 | a name is settled by the single-accepted stage exactly when it is repeated and its rows share one accepted IPNI id |
| WcvpyOpenrefine.NonUniqueMatchesIsFilter | wcvpy/wcvp_name_matching/resolve_openrefine_matches.py:45-47 | the non-unique matches are the surviving rows of names that are repeated with more than one accepted IPNI id, in order |
| WcvpyOpenrefine.NonUniqueMembership | wcvpy/wcvp_name_matching/resolve_openrefine_matches.py:45-47 | a row is a non-unique match exactly when its name is repeated with more than one accepted IPNI id |
| WcvpyOpenrefine.TopScoreAgrees | wcvpy/wcvp_name_matching/resolve_openrefine_matches.py:50-53 | for such a name, the group maximum over the non-unique rows is its maximum over all surviving rows |
| WcvpyOpenrefine.TopScorersCount | wcvpy/wcvp_name_matching/resolve_openrefine_matches.py:50-54 | for such a name, the number of top-scoring non-unique rows is the number of its rows holding its top score |
| WcvpyOpenrefine.TopUniqueKey | wcvpy/wcvp_name_matching/resolve_openrefine_matches.py:50-55 | a name is settled by its top score exactly when it is unsettled and a single row holds its top score |
| WcvpyOpenrefine.TopUniqueMembership | wcvpy/wcvp_name_matching/resolve_openrefine_matches.py:50-55 | a row is kept for its top score exactly when it is the only top-scoring row of an unsettled name |
| WcvpyOpenrefine.UnmatchedMembership | wcvpy/wcvp_name_matching/resolve_openrefine_matches.py:57-58 | the rows handed to the priority resolver are exactly the rows of unsettled names without a single top-scoring row |
| WcvpyOpenrefine.UnmatchedKey | wcvpy/wcvp_name_matching/resolve_openrefine_matches.py:57-58 | a name reaches the priority resolver exactly when it is unsettled and does not have a single top-scoring row |
| WcvpyOpenrefine.ResolvedMatchesGroups | wcvpy/wcvp_name_matching/resolve_openrefine_matches.py:31-67 | a row is tagged `openrefine_unique` exactly when its name occurs once; `openrefine_unique_accepted_name` exactly when it is the first row of a repeated name with one accepted IPNI id; `openrefine_unique_top_score` exactly when it is the only top-scoring row of any other repeated name; `openrefine_best_priority` exactly when the priority resolver picks it |
| WcvpyOpenrefine.GroupKeys | wcvpy/wcvp_name_matching/resolve_openrefine_matches.py:31-58 | each name is settled by the unique stage when it occurs once, by the single-accepted stage when it is repeated with one accepted IPNI id, by the top-score stage when it is otherwise unsettled with one top-scoring row, and handed to the priority resolver otherwise |
| WcvpyOpenrefine.TaggedGroupKeys | wcvpy/wcvp_name_matching/resolve_openrefine_matches.py:31-55 | the first three tagged groups carry exactly the names their stages settle |
| WcvpyOpenrefine.PriorityRowsKeys | wcvpy/wcvp_name_matching/resolve_openrefine_matches.py:60-63 | with a resolver that picks one of its input rows for each name given, the priority group carries exactly the names handed to it |
| WcvpyOpenrefine.TaggedGroupsUnique | wcvpy/wcvp_name_matching/resolve_openrefine_matches.py:31-63 | each tagged group names every submitted name at most once |
| WcvpyOpenrefine.OneResolutionPerName | wcvpy/wcvp_name_matching/resolve_openrefine_matches.py:65-67 | with such a resolver, no submitted name is resolved twice in the concatenated result |
| WcvpyOpenrefine.EveryNameResolved | wcvpy/wcvp_name_matching/resolve_openrefine_matches.py:31-67 | with such a resolver, a submitted name is resolved exactly when it has a surviving row |
| WcvpyOpenrefine.TopScoreAsWrittenNeverFires | wcvpy/wcvp_name_matching/resolve_openrefine_matches.py:53-54 | as written (score compared with the text `reco_score_max`), the top-score stage settles no name when no score is text |
| WcvpyOpenrefine.ExampleUnsettled | wcvpy/wcvp_name_matching/resolve_openrefine_matches.py:35-47 | a name matched twice to different accepted names is left unsettled by the first two stages |
| WcvpyOpenrefine.ExampleTopCount | wcvpy/wcvp_name_matching/resolve_openrefine_matches.py:50-53 | of the example's scores 90 and 70, only the row scored 90 holds the top score |
| WcvpyOpenrefine.TopScoreFindingExample | wcvpy/wcvp_name_matching/resolve_openrefine_matches.py:50-55 | on the example the stage as written selects nothing, while the corrected stage tags the row scored 90 `openrefine_unique_top_score` |
| WnmMatching.LookupKey | wcvp_name_matching/wcvp_matching.py:18-20 | the id compared is the given value as text when it does not contain the IPNI URN prefix, and otherwise a suffix of that text |
| WnmMatching.IdLookupWcvp | wcvp_name_matching/wcvp_matching.py:10-29 | exactly the checklist rows whose IPNI id is the cleaned given id, each at most as often as in the checklist |
| WnmMatching.IdLookupWcvpOfUrn | wcvp_name_matching/wcvp_matching.py:18-21 | an id written as an IPNI URN finds the same rows as the bare id |
| WnmMatching.IdLookupWcvpEmpty | wcvp_name_matching/wcvp_matching.py:21-23 | the lookup is empty exactly when no checklist row carries the cleaned id; a missing value is looked up as the text `nan` |
| WnmMatching.GetFamilySpecificResolutions | wcvp_name_matching/wcvp_matching.py:32-41 | without a family column the rows are returned as they are; with one, exactly the rows whose hint is missing or equals the row's family or accepted family, as a sub-multiset |
| WnmMatching.DirectCandidates | wcvp_name_matching/wcvp_matching.py:56-63 | every row left after the merge, the family filter and `dropna` has a checklist row with an accepted name |
| WnmMatching.DirectCandidatesMembership | wcvp_name_matching/wcvp_matching.py:56-63 | the candidate frame holds exactly the pairs of a submission and a checklist row whose name is the submission's matching name, which the family hint admits and which has an accepted name |
| WnmMatching.BestStatusPerSubmission | wcvp_name_matching/wcvp_matching.py:69-75 | every resolution is tagged `direct_wcvp` |
| WnmMatching.BestStatusPerSubmissionUnique | wcvp_name_matching/wcvp_matching.py:73 | one resolution per submission id |
| WnmMatching.BestStatusPerSubmissionSound | wcvp_name_matching/wcvp_matching.py:69-73 | each resolution comes from a row of its submission id |
| WnmMatching.BestStatusPerSubmissionBest | wcvp_name_matching/wcvp_matching.py:69-73 | every submission id with a row has a resolution whose status comes no later in `status_priority` than that of any of its rows |
| WnmMatching.StatusCheckMeaning | wcvp_name_matching/wcvp_matching.py:66-68 | every candidate row has a status in `status_priority` exactly when no candidate pair has a missing or unlisted status |
| WnmMatching.DirectResolutions | wcvp_name_matching/wcvp_matching.py:56-75 | the resolutions have unique submission ids; each is a candidate of a submission with that id, tagged `direct_wcvp`; every candidate's id is resolved with a status no later than the candidate's |
| WnmMatching.GetWcvpInfoForNamesInColumn | wcvp_name_matching/wcvp_matching.py:44-76 | raises `ValueError` exactly when some candidate has a status outside `status_priority`; otherwise one row per submission id with a candidate, each a candidate of that submission tagged `direct_wcvp`, whose status is no later than that of any candidate of the id |
| WnmGeneralUtils.Prio | wcvp_name_matching/general_matching_utils.py:18-27 | the sort number of a row lies below the weight of the priority order, so that earlier keys dominate later ones |
| WnmGeneralUtils.PrioLex | wcvp_name_matching/general_matching_utils.py:25-27 | comparing the sort numbers of two rows is exactly the lexicographic comparison of their categorical positions in the named columns, values outside a priority list sorting last |
| WnmGeneralUtils.ListedSortsFirst | wcvp_name_matching/general_matching_utils.py:9-11 | a status (rank) listed in `status_priority` (`rank_priority`) sorts strictly before one that is missing or not listed |
| WnmGeneralUtils.ResolveMatchesByPriorities | wcvp_name_matching/general_matching_utils.py:14-31 | raises `ValueError` exactly when `priority_order` holds an entry other than `status` and `rank`; otherwise rows of the input, one per submission id that has a row, each sorting no later under the priority order than any row of its id |
| WnmGeneralUtils.IdMergeRows | wcvp_name_matching/general_matching_utils.py:77-84 | the left merge keeps one row per caller row exactly when no filled id matches two checklist rows, and then row `i` holds caller row `i`, its filled id, and the checklist row with that IPNI id if there is one |
| WnmGeneralUtils.GetAcceptedWcvpInfoFromIpniIdsInColumn | wcvp_name_matching/general_matching_utils.py:66-94 | raises `ValueError` exactly when some filled id matches more than one checklist row; otherwise one output row per input row, in order, keeping its id (a missing id, or one that was the placeholder, comes back missing), carrying the checklist row with that IPNI id and tagged `ipni_id` |
| WnmGeneralUtils.UniqueIpniIdsNeverRaise | wcvp_name_matching/general_matching_utils.py:88-89 | with IPNI ids unique in the checklist the lookup never raises |
| WnmGeneralUtils.MissingIdMatchesNoMissingIpniId | wcvp_name_matching/general_matching_utils.py:78-84 | a row whose id is missing matches only checklist rows whose IPNI id is the placeholder text, never one whose IPNI id is missing |
| WnmAcceptedInfo.Tag | wcvp_name_matching/get_accepted_info.py:263-265 | tagging a step's rows with its `matched_by` value keeps every row, in order, and only adds the tag |
| WnmAcceptedInfo.FindBestMatchesFromMultiples | wcvp_name_matching/get_accepted_info.py:209-279 | raises `ValueError` exactly when some unresolved hit whose accepted name lies in its submitted name has a rank outside `rank_priority`; otherwise at most one resolution per submission key |
| WnmAcceptedInfo.SelfMatchesKey | wcvp_name_matching/get_accepted_info.py:221-223 | a key has a first-step row exactly when some hit of it has accepted name equal to the submitted name |
| WnmAcceptedInfo.NotSelfMatchedMembership | wcvp_name_matching/get_accepted_info.py:225-227 | the rows left after the first step are exactly the hits of keys with no self-match |
| WnmAcceptedInfo.UniqueAcceptedMembership | wcvp_name_matching/get_accepted_info.py:230-231 | dropping repeated (key, accepted id) pairs keeps only rows left after the first step and keeps every such pair |
| WnmAcceptedInfo.UniqueAcceptedHasPair | wcvp_name_matching/get_accepted_info.py:230-231 | every remaining hit has a kept row with the same key and accepted id |
| WnmAcceptedInfo.SeveralNotSingle | wcvp_name_matching/get_accepted_info.py:234-236 | a key with two different accepted ids among its remaining hits has no single-accepted row |
| WnmAcceptedInfo.SingleAcceptedOnce | wcvp_name_matching/get_accepted_info.py:234-236 | `drop_duplicates(keep=False)` leaves at most one row per key |
| WnmAcceptedInfo.OneAcceptedSingle | wcvp_name_matching/get_accepted_info.py:230-236 | a remaining key whose hits all share one accepted id has a single-accepted row |
| WnmAcceptedInfo.SingleAcceptedMembership | wcvp_name_matching/get_accepted_info.py:230-236 | the single-accepted rows are exactly the kept rows of keys with one accepted id and no self-match |
| WnmAcceptedInfo.ContainedHitsSound | wcvp_name_matching/get_accepted_info.py:239-248 | a third-step candidate is a hit with an accepted name contained in its submitted name, of a key with neither a self-match nor a single accepted id |
| WnmAcceptedInfo.ContainedHitsComplete | wcvp_name_matching/get_accepted_info.py:239-248 | every such hit is a third-step candidate |
| WnmAcceptedInfo.TagMembership | wcvp_name_matching/get_accepted_info.py:263-265 | a tagged row comes from the tagged step and carries its tag |
| WnmAcceptedInfo.TagKey | wcvp_name_matching/get_accepted_info.py:263-265 | tagging changes no key |
| WnmAcceptedInfo.SelfMatchStepSound | wcvp_name_matching/get_accepted_info.py:221-223 | a `knms_multiple_1` row is a hit whose accepted name is its submitted name |
| WnmAcceptedInfo.SingleAcceptedStepSound | wcvp_name_matching/get_accepted_info.py:230-236 | a `knms_multiple_2` row is a hit of a key with no self-match and one accepted id |
| WnmAcceptedInfo.ContainmentStepSound | wcvp_name_matching/get_accepted_info.py:239-259 | a `knms_multiple_3` row is a containment candidate of its key with the most specific rank among them |
| WnmAcceptedInfo.LadderStepsSound | wcvp_name_matching/get_accepted_info.py:263-268 | every row of the concatenated steps is the outcome of one of the three steps |
| WnmAcceptedInfo.FindBestMatchesFromMultiplesSound | wcvp_name_matching/get_accepted_info.py:209-279 | every resolution returned is the outcome of one of the three steps |
| WnmAcceptedInfo.LadderPick | wcvp_name_matching/get_accepted_info.py:266-269 | keeping the first row per key picks the first step that has the key: self-match before single accepted id before containment |
| WnmAcceptedInfo.SelfMatchWins | wcvp_name_matching/get_accepted_info.py:221-269 | a key with a self-match is resolved by a self-match |
| WnmAcceptedInfo.SingleAcceptedWins | wcvp_name_matching/get_accepted_info.py:234-269 | a key without a self-match and with one accepted id is resolved by its single-accepted row |
| WnmAcceptedInfo.ContainmentWins | wcvp_name_matching/get_accepted_info.py:239-269 | a key with several accepted ids and a containment candidate is resolved by the most specific containment candidate |
| WnmAcceptedInfo.NoEligibleHitLeftOut | wcvp_name_matching/get_accepted_info.py:271-273 | a key with several accepted ids and no hit whose accepted name lies in the submitted name stays unresolved |
| WnmAcceptedInfo.IdTaxon | wcvp_name_matching/get_accepted_info.py:293-297 | the checklist row found for an id (missing ids filled with the placeholder) has that IPNI id, and none is found exactly when no checklist row has it |
| WnmAcceptedInfo.GetAcceptedWcvpInfoFromIdsInColumn | wcvp_name_matching/get_accepted_info.py:282-306 | raises `ValueError` exactly when some filled id matches more than one checklist row; otherwise one output row per input row, in order, with its id restored and the checklist row of that id |
| WnmAcceptedInfo.IdsInColumnAgree | wcvp_name_matching/get_accepted_info.py:282-306 | this lookup and the IPNI-id lookup of the shared utilities raise together and otherwise give the same rows, ids and checklist rows |
| WnmAcceptedInfo.KnmsNames | wcvp_name_matching/get_accepted_info.py:168 | the names sent to the matching service are exactly the recapitalised names of the submissions |
| WnmAcceptedInfo.CleanedId | wcvp_name_matching/get_accepted_info.py:170 | cleaning a service id keeps a missing id missing and otherwise yields a suffix of the id |
| WnmAcceptedInfo.CleanedIdOfUrn | wcvp_name_matching/get_accepted_info.py:170 | an IPNI URN cleans to the id after its prefix |
| WnmAcceptedInfo.KnmsHitMatch | wcvp_name_matching/get_accepted_info.py:169-171 | the `i`-th looked-up hit is the service row and submission of the `i`-th merged pair with the checklist row of its cleaned id |
| WnmAcceptedInfo.KnmsCandidatesSound | wcvp_name_matching/get_accepted_info.py:169-172 | a candidate pairs a service row with a submission of its name, not in state `false` |
| WnmAcceptedInfo.KnmsHitIndex | wcvp_name_matching/get_accepted_info.py:169 | the merge holds every service row paired with every submission of its name |
| WnmAcceptedInfo.KnmsCandidatesComplete | wcvp_name_matching/get_accepted_info.py:169-172 | every such pair outside state `false` is a candidate |
| WnmAcceptedInfo.KnmsCandidatesMembership | wcvp_name_matching/get_accepted_info.py:168-172 | the candidates are exactly the pairs of a service row and a submission of its name outside state `false` |
| WnmAcceptedInfo.PromotedMeaning | wcvp_name_matching/get_accepted_info.py:181-187 | a row's state becomes `true` exactly when its key occurs once among the rows; nothing else changes |
| WnmAcceptedInfo.FamilyCheckedSound | wcvp_name_matching/get_accepted_info.py:173-187 | with a family column a kept row has a family (own or accepted) equal to the hint, or no hint, and differs from its source row at most in its state; without one rows pass unchanged |
| WnmAcceptedInfo.FamilyCheckedComplete | wcvp_name_matching/get_accepted_info.py:173-187 | every row passing the family test is kept, possibly promoted to `true` |
| WnmAcceptedInfo.GetKnmsMatchesAndAcceptedInfoFromNamesInColumn | wcvp_name_matching/get_accepted_info.py:156-206 | no submissions give no rows; otherwise at most one resolution per submission key |
| WnmAcceptedInfo.KnmsRowsSound | wcvp_name_matching/get_accepted_info.py:167-187 | every service-stage row answers a submission's name with the checklist row of its cleaned id, is not in state `false`, keeps the service state unless the family check promoted it, and passes the family test when there is a family column |
| WnmAcceptedInfo.KnmsStageSound | wcvp_name_matching/get_accepted_info.py:189-202 | a resolution of the stage has an accepted name and is either a `true` row tagged `knms_single` or a multiple-match row chosen by the three-step ladder |
| WnmAcceptedInfo.SingleResolvedFirst | wcvp_name_matching/get_accepted_info.py:196-202 | a `true` row with an accepted name keeps its key in the result, tagged `knms_single`, since single matches come first |
| WnmAcceptedInfo.KnmsSingleResolved | wcvp_name_matching/get_accepted_info.py:189-202 | every submission with a `true` service row that has an accepted name is resolved by `knms_single` |
| WnmAcceptedInfo.KnmsStageNeverRaises | wcvp_name_matching/get_accepted_info.py:171-252 | with unique checklist IPNI ids and every accepted rank in `rank_priority` the stage never raises |
| WnmAcceptedInfo.AutoresolveMissingMatches | wcvp_name_matching/get_accepted_info.py:43-153 | the nested loops over submissions and contained checklist rows compute exactly the auto-resolution specification |
| WnmAcceptedInfo.AutoCandidatesSound | wcvp_name_matching/get_accepted_info.py:76-112 | a candidate pairs a submission with a checklist row whose name it contains, family-compatible when there is a family column, with an accepted name |
| WnmAcceptedInfo.AutoCandidatesComplete | wcvp_name_matching/get_accepted_info.py:76-112 | every such pair is a candidate |
| WnmAcceptedInfo.AutoCandidatesMembership | wcvp_name_matching/get_accepted_info.py:76-112 | the candidates are exactly those pairs |
| WnmAcceptedInfo.GuardedMembership | wcvp_name_matching/get_accepted_info.py:114-122 | without a family column a genus-rank candidate survives only when its name is a genus of the checklist; other candidates always survive |
| WnmAcceptedInfo.StatusBestCovers | wcvp_name_matching/get_accepted_info.py:129-133 | every (submission, accepted rank) pair keeps a row after the status step |
| WnmAcceptedInfo.StatusBestRanks | wcvp_name_matching/get_accepted_info.py:133-138 | the rank check after the status step fails exactly when some candidate's rank is outside `rank_priority` |
| WnmAcceptedInfo.AutoresolvedTypeError | wcvp_name_matching/get_accepted_info.py:76-80 | the containment test raises `TypeError` exactly when there are submissions and some checklist name is missing |
| WnmAcceptedInfo.AutoresolvedErrors | wcvp_name_matching/get_accepted_info.py:53-138 | auto-resolution raises exactly when there are submissions and a checklist name is missing or a guarded candidate has a status or rank outside the priority lists |
| WnmAcceptedInfo.AutoresolvedValue | wcvp_name_matching/get_accepted_info.py:124-151 | when it does not raise the result is the best-status, then most-specific-rank candidate per submission |
| WnmAcceptedInfo.AutoOutSound | wcvp_name_matching/get_accepted_info.py:146-150 | every output row is the merge of a submission with a chosen row of its key |
| WnmAcceptedInfo.RankBestMinimal | wcvp_name_matching/get_accepted_info.py:129-143 | the chosen row has the most specific rank of its submission's rows, and the best status among rows of its submission and rank |
| WnmAcceptedInfo.AutoresolvedSound | wcvp_name_matching/get_accepted_info.py:43-151 | every auto-resolution is a guarded candidate of a submission, tagged `autoresolution`, with the most specific rank and then the best status among that submission's guarded candidates |
| WnmAcceptedInfo.RankBestCovers | wcvp_name_matching/get_accepted_info.py:140-143 | every submission with a candidate keeps a chosen row |
| WnmAcceptedInfo.AutoOutComplete | wcvp_name_matching/get_accepted_info.py:146-148 | every submission with a chosen row appears in the merge |
| WnmAcceptedInfo.AutoresolvedComplete | wcvp_name_matching/get_accepted_info.py:43-151 | every submission with a guarded candidate is auto-resolved |
| WnmAcceptedInfo.AutoresolvedUnique | wcvp_name_matching/get_accepted_info.py:143-148 | with one submission per key, auto-resolution gives at most one row per key |
| WnmAcceptedInfo.ManualKeptSound | wcvp_name_matching/get_accepted_info.py:406-413 | a kept manual row is one of the table's rows, carrying the checklist row of its resolution id, which has an accepted name |
| WnmAcceptedInfo.ManualMatchesSound | wcvp_name_matching/get_accepted_info.py:406-417 | every manual match has the key of a submission, is tagged `manual`, and is explained by a manual row naming that submission |
| WnmAcceptedInfo.ManualJoinHasKey | wcvp_name_matching/get_accepted_info.py:414-416 | a submission joined to a kept manual row with its name is a key of the merge |
| WnmAcceptedInfo.ManualRowKept | wcvp_name_matching/get_accepted_info.py:408-413 | a manual row that resolves a submission to a checklist row with an accepted name is kept |
| WnmAcceptedInfo.ManualMatchesComplete | wcvp_name_matching/get_accepted_info.py:406-419 | every submission that a manual row resolves has a manual match |
| WnmAcceptedInfo.ManualMatchesUnique | wcvp_name_matching/get_accepted_info.py:414-416 | with one submission per key and one manual row per name, manual matches are unique per key |
| WnmAcceptedInfo.RemainingMembership | wcvp_name_matching/get_accepted_info.py:418-433 | the unresolved submissions are exactly those whose key has no resolved row |
| WnmAcceptedInfo.ManualKeyResolvable | wcvp_name_matching/get_accepted_info.py:414-419 | a submission whose key has a manual match is one that the manual table resolves |
| WnmAcceptedInfo.ManualMatchesOk | wcvp_name_matching/get_accepted_info.py:405-422 | the manual stage keeps its promises: every row explained by a submission with its key, every resolvable submission covered, keys unique given a table unique per name |
| WnmAcceptedInfo.ManualRowOk | wcvp_name_matching/get_accepted_info.py:414-431 | a manual row is justified and wins over every other stage |
| WnmAcceptedInfo.DirectRowOk | wcvp_name_matching/get_accepted_info.py:425-431 | an exact-match row is justified by a submission the manual table does not resolve, and its key has no manual row |
| WnmAcceptedInfo.FirstStagesCover | wcvp_name_matching/get_accepted_info.py:418-433 | every submission that a manual row or an exact match resolves has a row after the first two stages |
| WnmAcceptedInfo.FirstStages | wcvp_name_matching/get_accepted_info.py:405-433 | after the manual and exact-match stages the resolved rows are justified, in priority, covering and unique per key |
| WnmAcceptedInfo.RemainingUnclaimed | wcvp_name_matching/get_accepted_info.py:432-445 | a submission left unresolved is one that neither the manual table nor an exact match resolves |
| WnmAcceptedInfo.LaterRowOk | wcvp_name_matching/get_accepted_info.py:435-457 | a later stage's row for a submission left alone so far is justified and in priority for every submission with its key |
| WnmAcceptedInfo.LaterDisjoint | wcvp_name_matching/get_accepted_info.py:443-454 | a later stage's rows share no key with the rows resolved before it |
| WnmAcceptedInfo.AddLaterStage | wcvp_name_matching/get_accepted_info.py:443-454 | appending or prepending a later stage's rows keeps the stage invariant |
| WnmAcceptedInfo.KnmsRowLater | wcvp_name_matching/get_accepted_info.py:435-443 | every service-stage row is explained by the unresolved submission it answers |
| WnmAcceptedInfo.KnmsStageOk | wcvp_name_matching/get_accepted_info.py:435-445 | the service stage, run on the unresolved submissions, meets what a later stage must |
| WnmAcceptedInfo.AutoStageOk | wcvp_name_matching/get_accepted_info.py:447-454 | auto-resolution, run on the unresolved submissions, meets what a later stage must |
| WnmAcceptedInfo.FinishStages | wcvp_name_matching/get_accepted_info.py:462-468 | appending the still unresolved submissions with no information gives a final table that is justified, in priority, and covers every submission |
| WnmAcceptedInfo.DirectStage | wcvp_name_matching/get_accepted_info.py:425-429 | the exact-match stage raises exactly when a candidate has an unknown status, and otherwise keeps the promises of `get_wcvp_info_for_names_in_column` |
| WnmAcceptedInfo.ResolveStages | wcvp_name_matching/get_accepted_info.py:404-468 | raises exactly when the manual lookup raises, an exact-match candidate of a submission the manual table does not resolve has an unknown status, the service stage raises (match level `full` or `knms`), or auto-resolution raises (`full`); otherwise every final row is justified by the stage that made it, in the priority manual, exact match, service, auto-resolution (a submission the service resolves gets the service row, one it leaves that auto-resolution settles gets that row), every submission is present, and keys are unique given a manual table unique per name |
| WnmAcceptedInfo.RemainingAfterManual | wcvp_name_matching/get_accepted_info.py:418-422 | after the manual stage the unresolved submissions are exactly those the manual table does not resolve |
| WnmAcceptedInfo.DirectFailsAfterManual | wcvp_name_matching/get_accepted_info.py:425-429 | the exact-match stage, run on what the manual stage leaves, raises exactly when such a submission has a candidate of unknown status |
| WnmAcceptedInfo.ServiceFrameIs | wcvp_name_matching/get_accepted_info.py:431-433 | the submissions handed to the service are exactly those neither a manual row nor an exact match resolves |
| WnmAcceptedInfo.KnmsFinalKeys | wcvp_name_matching/get_accepted_info.py:436-442 | the service's final rows carry exactly the keys of its tagged rows |
| WnmAcceptedInfo.AutoFrameIs | wcvp_name_matching/get_accepted_info.py:442-444 | the submissions handed to auto-resolution are exactly those the first three stages leave |
| WnmAcceptedInfo.KnmsLaterPriority | wcvp_name_matching/get_accepted_info.py:435-442 | every service row is in priority for every submission with its key |
| WnmAcceptedInfo.AutoLaterPriority | wcvp_name_matching/get_accepted_info.py:446-452 | every auto-resolution row is in priority for every submission with its key |
| WnmAcceptedInfo.UnmatchedAfterService | wcvp_name_matching/get_accepted_info.py:454-468 | at a match level other than `full`, a submission the service leaves gets an empty row that no stage should have displaced |
| WnmAcceptedInfo.UnmatchedAfterAuto | wcvp_name_matching/get_accepted_info.py:446-468 | at match level `full`, a submission auto-resolution also leaves gets an empty row that no stage should have displaced |
| WnmAcceptedInfo.FinalRowOf | wcvp_name_matching/get_accepted_info.py:462-468 | every submission has a final row with its key, in priority |
| WnmAcceptedInfo.FinalServiceSingle | wcvp_name_matching/get_accepted_info.py:435-442 | a submission that gets past the manual and exact-match stages and has a true service match with an accepted name ends with a `knms_single` row |
| WnmAcceptedInfo.FinalAutoresolved | wcvp_name_matching/get_accepted_info.py:446-452 | at match level `full`, a submission the service leaves and auto-resolution can settle ends with an `autoresolution` row |
| WnmAcceptedInfo.KnmsStageTagged | wcvp_name_matching/get_accepted_info.py:156-206 | every service-stage row has a service tag, never `autoresolution`, comes from the candidates after the family check and has an accepted name |
| WnmAcceptedInfo.KnmsRowExplained | wcvp_name_matching/get_accepted_info.py:156-206 | every service-stage row answers a submission of the frame it was given, with information the service explains |
| WnmAcceptedInfo.PreparedSound | wcvp_name_matching/get_accepted_info.py:343-402 | every prepared submission comes from a caller row with a name, carries its key, its name as given and recapitalised, and its tidied family only when the checklist knows it |
| WnmAcceptedInfo.PreparedCovers | wcvp_name_matching/get_accepted_info.py:345-402 | every caller row with a name has a prepared submission with its key |
| WnmAcceptedInfo.UnkeyedNoSubmission | wcvp_name_matching/get_accepted_info.py:474-475 | a key missing from the final table belongs to no submission |
| WnmAcceptedInfo.JoinRowOk | wcvp_name_matching/get_accepted_info.py:472-477 | each row of the left merge is a caller row with information justified and in priority for its key |
| WnmAcceptedInfo.JoinOk | wcvp_name_matching/get_accepted_info.py:472-480 | merging the final table back onto the caller's rows gives an output of caller rows only, each justified, every caller row present |
| WnmAcceptedInfo.GetAcceptedInfoFromNamesInColumn | wcvp_name_matching/get_accepted_info.py:309-485 | raises exactly when the match level is unknown or a column name is reserved (`ValueError`), when a non-empty frame has a family in its family column that is not among the families of interest (`ValueError`, the check corrected as under Findings), or when the stages raise; an empty frame gives no rows; otherwise the output is every caller row, each with information justified by the stage that resolved its key, in stage priority |
| WnmAcceptedInfo.FamiliesCheckAsWrittenRejectsConsistent | wcvp_name_matching/get_accepted_info.py:350-357 | as written, the consistency check raises `AttributeError` even when every family given is of interest |
| AmnMatching.AcceptedTaxon | automatchnames/wcvp_matching.py:18-27 | an accepted record is its own accepted taxon; otherwise the accepted taxon is the first row of the list with the record's accepted name and accepted Kew id, and there is one exactly when such a row exists |
| AmnMatching.DictFromWcvpRecord | automatchnames/wcvp_matching.py:9-44 | the submitted status is always reported; without an accepted taxon every other field is missing; otherwise the accepted name and id are the record's, the rank is the accepted taxon's, and the species is the accepted name for a species-like rank, missing for a genus, and the accepted taxon's parent otherwise |
| AmnMatching.AcceptedRecordIsItsOwnAcceptedTaxon | automatchnames/wcvp_matching.py:18-31 | in a checklist repaired by `fix_columns`, an accepted record reports its own name, id and rank, and a species is its own species |
| AmnMatching.SynonymReadsItsAcceptedTaxon | automatchnames/wcvp_matching.py:20-40 | a record that is not accepted reports the rank and species of the one row naming its accepted taxon |
| AmnMatching.LookupKey | automatchnames/wcvp_matching.py:54-56 | the compared id is the id as text, unchanged when it holds no IPNI URN prefix, and in any case a suffix of that text |
| AmnMatching.IdLookupWcvp | automatchnames/wcvp_matching.py:47-66 | no record or several records with the id give the all-missing dictionary; exactly one gives that record's accepted information |
| AmnMatching.IdLookupWcvpOfUrn | automatchnames/wcvp_matching.py:55-56 | an id written as an IPNI URN looks up as the bare id |
| AmnMatching.IdLookupWcvpOfNan | automatchnames/wcvp_matching.py:54 | a missing id looks up as the text `nan` |
| AmnMatching.IdLookupWcvpStatus | automatchnames/wcvp_matching.py:57-66 | a reported status is the status of a record with the id |
| AmnMatching.MatchFrameMembership | automatchnames/wcvp_matching.py:80-95 | the match frame holds exactly, for each submitted name and each record bearing it, the information looked up by that record's id |
| AmnMatching.StatusCheckMeaning | automatchnames/wcvp_matching.py:98-101 | the status check passes exactly when every record bearing a submitted name looks up to a status in `status_priority` |
| AmnMatching.BestSound | automatchnames/wcvp_matching.py:102-106 | each kept row is the looked-up information of a record bearing a submitted name |
| AmnMatching.BestComplete | automatchnames/wcvp_matching.py:102-106 | each submitted name with a record bearing it keeps a row whose status is no worse than that record's |
| AmnMatching.GetWcvpInfoForNamesInColumn | automatchnames/wcvp_matching.py:69-108 | raises `ValueError` exactly when some match has a status outside `status_priority`; otherwise one row per submitted name that has a record, each the information of a record bearing it, with the best status among them |
| AmnResolvingNames.GetResolutionsWithSingleRank | automatchnames/resolving_names.py:4-28 | keeps at most the input's rows, each with an accepted name contained in its submitted name |
| AmnResolvingNames.OnlyOfRankOfSingle | automatchnames/resolving_names.py:12-20 | a submission whose hits all have the rank passes both `isin` tests |
| AmnResolvingNames.SingleOfOnlyOfRank | automatchnames/resolving_names.py:12-20 | a submission passing both `isin` tests has hits, all of the rank |
| AmnResolvingNames.OnlyOfRankMeaning | automatchnames/resolving_names.py:12-20 | the two `isin` tests hold exactly when the submission's hits all have the rank |
| AmnResolvingNames.MasksMeaning | automatchnames/resolving_names.py:17-26 | the three masks together hold of a hit exactly when it is resolvable |
| AmnResolvingNames.GetResolutionsWithSingleRankIsFilter | automatchnames/resolving_names.py:4-28 | the selection keeps, in order and unchanged, exactly the resolvable hits |
| AmnResolvingNames.GetResolutionsWithSingleRankMembership | automatchnames/resolving_names.py:4-28 | a hit is kept exactly when all hits of its submission have the rank and its accepted name is present and inside the submitted name |
| AmnResolvingNames.GetResolutionsWithSingleRankHasRank | automatchnames/resolving_names.py:12-20 | every kept hit has the rank asked for |
| AmnResolvingNames.MixedRanksContributeNothing | automatchnames/resolving_names.py:13-20 | a submission with a hit of another rank, or with no rank, contributes nothing |
| AmnAcceptedInfo.IdInfo | automatchnames/get_accepted_info.py:220-225 | the five kept columns are those of `id_lookup_wcvp` for the id; the status is not kept |
| AmnAcceptedInfo.Attach | automatchnames/get_accepted_info.py:233-235 | the column-wise concatenation keeps every row, in order, beside the value of the same position |
| AmnAcceptedInfo.WithIds | automatchnames/get_accepted_info.py:209-237 | the lookup frame has one row per input row, in order, each the input row itself |
| AmnAcceptedInfo.WithIdsMembership | automatchnames/get_accepted_info.py:222-235 | a row of the frame is exactly an input row with the information looked up for its id |
| AmnAcceptedInfo.GetAcceptedInfoFromIdsInColumn | automatchnames/get_accepted_info.py:209-237 | the loop over the ids builds exactly that frame, and the length check never raises |
| AmnAcceptedInfo.Ranks | automatchnames/get_accepted_info.py:189 | every accepted rank of the rows is among the ranks listed |
| AmnAcceptedInfo.ResolveByRanks | automatchnames/get_accepted_info.py:189-194 | the loop over the ranks concatenates the single-rank selection of each rank |
| AmnAcceptedInfo.BestFromHits | automatchnames/get_accepted_info.py:173-198 | the chosen rows hold at most one row per submitted name |
| AmnAcceptedInfo.UniqueMatchRow | automatchnames/get_accepted_info.py:178-179 | a unique hit is the first hit of its submitted name and accepted id |
| AmnAcceptedInfo.OneIdSamePair | automatchnames/get_accepted_info.py:178-179 | when a name's hits share one accepted id, any two of them share name and id |
| AmnAcceptedInfo.OneIdCountsOnce | automatchnames/get_accepted_info.py:178-182 | such a name keeps exactly one unique hit |
| AmnAcceptedInfo.TwoIdsCountTwice | automatchnames/get_accepted_info.py:178-182 | a name with two accepted ids keeps at least two unique hits |
| AmnAcceptedInfo.SingleAcceptedMeaning | automatchnames/get_accepted_info.py:181-182 | a submitted name has a single-accepted-id row exactly when it has hits and they all share one accepted id |
| AmnAcceptedInfo.SingleAcceptedRow | automatchnames/get_accepted_info.py:178-182 | that row is the name's first hit |
| AmnAcceptedInfo.ContainmentMembership | automatchnames/get_accepted_info.py:189-194 | over all ranks present, the containment step keeps exactly the rows whose name's rows all have the row's own rank and whose accepted name lies inside the submitted name |
| AmnAcceptedInfo.UnresolvedOfName | automatchnames/get_accepted_info.py:184-185 | for a name without a single accepted id, its unresolved rows are its unique hits |
| AmnAcceptedInfo.SingleRankSameRows | automatchnames/resolving_names.py:12-20 | two frames holding the same rows of a name agree on whether all of them have the rank |
| AmnAcceptedInfo.SingleRankUnresolved | automatchnames/get_accepted_info.py:184-193 | for such a name, the rank condition reads the same over the unresolved rows and over the unique hits |
| AmnAcceptedInfo.BestFromHitsSound | automatchnames/get_accepted_info.py:196-198 | every chosen row is one of the hits |
| AmnAcceptedInfo.BestFromHitsSelfMatch | automatchnames/get_accepted_info.py:174-198 | a name with a hit whose accepted name is the submitted name gets its first such hit |
| AmnAcceptedInfo.BestFromHitsSingle | automatchnames/get_accepted_info.py:181-198 | a name without a self-match whose hits share one accepted id gets its first hit |
| AmnAcceptedInfo.BestFromHitsContainment | automatchnames/get_accepted_info.py:184-198 | a name without a self-match and with several accepted ids gets a unique hit whose rank all its unique hits share and whose accepted name lies in the submitted name |
| AmnAcceptedInfo.BestFromMultiples | automatchnames/get_accepted_info.py:159-206 | the best matches of the multiple-match records hold at most one row per submitted name |
| AmnAcceptedInfo.FindBestMatchesFromMultiples | automatchnames/get_accepted_info.py:159-206 | cleaning the ids, looking them up and running the three steps computes exactly those best matches |
| AmnAcceptedInfo.AutoresolveMissingMatches | automatchnames/get_accepted_info.py:39-123 | the nested loops over names and contained checklist names compute exactly the auto-resolution specification |
| AmnAcceptedInfo.AutoCandidatesSound | automatchnames/get_accepted_info.py:57-80 | a collected row pairs a submitted name with a checklist row whose name it contains, looked up by the first id bearing that name, with an accepted name |
| AmnAcceptedInfo.AutoCandidatesComplete | automatchnames/get_accepted_info.py:57-80 | every such pair whose lookup has an accepted name is collected |
| AmnAcceptedInfo.FirstNamedInChecklist | automatchnames/get_accepted_info.py:71-73 | the id looked up for a contained checklist name is that of the first checklist row bearing the name |
| AmnAcceptedInfo.FamilyGuardKeepsAll | automatchnames/get_accepted_info.py:89-94 | with families given the genus guard keeps every row, since every row's name is among the matched names |
| AmnAcceptedInfo.GuardedMembership | automatchnames/get_accepted_info.py:84-94 | the guarded rows are the collected rows, and without families only those that are not a genus match of a name with a space, unless the name holds the hybrid character |
| AmnAcceptedInfo.StatusBestCovers | automatchnames/get_accepted_info.py:101-105 | every (name, accepted rank) pair keeps a row after the status step |
| AmnAcceptedInfo.StatusBestRanks | automatchnames/get_accepted_info.py:105-111 | the rank check after the status step fails exactly when some row's rank is outside `rank_priority` |
| AmnAcceptedInfo.AutoresolvedTypeError | automatchnames/get_accepted_info.py:57-60 | the containment test raises `TypeError` exactly when there are names and some checklist name is missing |
| AmnAcceptedInfo.AutoresolvedErrors | automatchnames/get_accepted_info.py:47-111 | auto-resolution raises exactly when there are names and a checklist name is missing or a guarded row has a status or rank outside the priority lists |
| AmnAcceptedInfo.AutoresolvedValue | automatchnames/get_accepted_info.py:96-121 | when it does not raise the result is the best-status, then most-specific-rank row per name |
| AmnAcceptedInfo.AutoOutSound | automatchnames/get_accepted_info.py:119-120 | every output row is a name merged with its chosen row |
| AmnAcceptedInfo.RankBestMinimal | automatchnames/get_accepted_info.py:101-116 | the chosen row has the most specific rank of its name's rows, and the best status among rows of its name and rank |
| AmnAcceptedInfo.AutoresolvedSound | automatchnames/get_accepted_info.py:39-121 | every auto-resolution is a guarded row of a name, with an accepted name, the most specific rank and then the best status among that name's guarded rows |
| AmnAcceptedInfo.RankBestCovers | automatchnames/get_accepted_info.py:113-116 | every name with a guarded row keeps a chosen row |
| AmnAcceptedInfo.AutoresolvedComplete | automatchnames/get_accepted_info.py:39-121 | every name that contains a checklist name whose lookup has an accepted name, and that passes the guard, is auto-resolved |
| AmnAcceptedInfo.AutoresolvedUnique | automatchnames/get_accepted_info.py:116-119 | with each name once, auto-resolution gives at most one row per name |
| AmnAcceptedInfo.GetKnmsMatchesAndAcceptedInfoFromNamesInColumn | automatchnames/get_accepted_info.py:126-156 | the service stage computes exactly the stage specification |
| AmnAcceptedInfo.ResolutionsMembership | automatchnames/get_accepted_info.py:144-153 | a resolution comes from a single or a chosen multiple hit and has an accepted name |
| AmnAcceptedInfo.SingleHitsMembership | automatchnames/get_accepted_info.py:137-139 | the single hits are exactly the `true` records with the lookup of their ids |
| AmnAcceptedInfo.KnmsResolvedMembership | automatchnames/get_accepted_info.py:134-154 | the stage's resolutions are exactly the single matches with their lookup and the chosen multiple matches, those with an accepted name |
| AmnAcceptedInfo.KnmsMultiplesOncePerName | automatchnames/get_accepted_info.py:141-198 | multiple matches contribute at most one resolution per submitted name |
| AmnAcceptedInfo.ManualMatchesSound | automatchnames/get_accepted_info.py:271-277 | a manual match is a name with the lookup of a file row for it, and has an accepted name |
| AmnAcceptedInfo.ManualMatchesComplete | automatchnames/get_accepted_info.py:271-277 | every file row of a name whose lookup has an accepted name gives a manual match |
| AmnAcceptedInfo.ManualMatchOfName | automatchnames/get_accepted_info.py:273-277 | every manual match is of one of the names |
| AmnAcceptedInfo.DirectStage | automatchnames/get_accepted_info.py:291-293 | the exact-name stage computes exactly the name matching of the checklist on the names left |
| AmnAcceptedInfo.DirectMatchOfName | automatchnames/get_accepted_info.py:292-293 | every exact-name match is of one of the names |
| AmnAcceptedInfo.NamesLeftMembership | automatchnames/get_accepted_info.py:278-310 | the names left are exactly the names with no resolved row |
| AmnAcceptedInfo.ManualStage | automatchnames/get_accepted_info.py:271-281 | the manual stage computes exactly the manual matches |
| AmnAcceptedInfo.ResolveNames | automatchnames/get_accepted_info.py:270-314 | the stages, run one after the other, compute exactly the staged specification |
| AmnAcceptedInfo.FinalFrameFirst | automatchnames/get_accepted_info.py:294-321 | in layered stages the first row of a name in the final frame is the answer of the first stage that resolved it: manual, exact, service, auto, else unmatched |
| AmnAcceptedInfo.DirectLayered | automatchnames/get_accepted_info.py:292-295 | the exact-name stage answers no name an earlier stage resolved |
| AmnAcceptedInfo.AutoLayered | automatchnames/get_accepted_info.py:301-305 | auto-resolution answers no name an earlier stage resolved |
| AmnAcceptedInfo.UnmatchedLayered | automatchnames/get_accepted_info.py:310-314 | every name no stage resolved gets an unmatched row, and every unmatched row has all accepted columns missing |
| AmnAcceptedInfo.StagesLayered | automatchnames/get_accepted_info.py:270-314 | the computed stages are layered for every name |
| AmnAcceptedInfo.ResolutionOfName | automatchnames/get_accepted_info.py:270-321 | every name has a row in the final frame, and its first row is the answer of the first stage that resolved it |
| AmnAcceptedInfo.AccInfoFromMatches | automatchnames/get_accepted_info.py:320-321 | the lookup succeeds exactly when the final frame has a row for the name |
| AmnAcceptedInfo.RecompileLoop | automatchnames/get_accepted_info.py:323-331 | the loop over the caller's rows computes exactly the recompiled frame |
| AmnAcceptedInfo.TidiedTexts | automatchnames/get_accepted_info.py:261-324 | tidying succeeds exactly when every name is text, and then gives one tidied text per row |
| AmnAcceptedInfo.ResolvedFrame | automatchnames/get_accepted_info.py:252-318 | when it succeeds it carries the tidied texts, one per caller row |
| AmnAcceptedInfo.GetAcceptedInfoFromNamesInColumn | automatchnames/get_accepted_info.py:240-335 | computes exactly the corrected specification `AcceptedInfoFromNames` |
| AmnAcceptedInfo.AcceptedInfoErrors | automatchnames/get_accepted_info.py:252-335 | the call fails exactly when the frame is non-empty and tidying or a stage fails, and only with `AttributeError`, `TypeError` or `ValueError` |
| AmnAcceptedInfo.StageErrors | automatchnames/get_accepted_info.py:270-314 | a stage fails only with `TypeError` or `ValueError` |
| AmnAcceptedInfo.DirectErrorKind | automatchnames/wcvp_matching.py:98-101 | the exact-name stage fails only with `ValueError` |
| AmnAcceptedInfo.AutoErrorKinds | automatchnames/get_accepted_info.py:57-111 | auto-resolution fails only with `TypeError` or `ValueError` |
| AmnAcceptedInfo.TidiedNameKept | automatchnames/get_accepted_info.py:264-324 | every tidied name of a caller row is one of the deduplicated names |
| AmnAcceptedInfo.RecompiledRows | automatchnames/get_accepted_info.py:320-331 | when every name has a row, every caller row, in order, gets the columns of its name's first final row |
| AmnAcceptedInfo.RowsOfStages | automatchnames/get_accepted_info.py:307-331 | recompiling from layered stages answers each caller row with its name's stage resolution |
| AmnAcceptedInfo.StagesAllLayered | automatchnames/get_accepted_info.py:270-314 | the computed stages are layered for all names |
| AmnAcceptedInfo.AcceptedInfoOfRows | automatchnames/get_accepted_info.py:240-333 | when tidying and the stages succeed, every caller row, in order, receives the columns of the stage that resolved its tidied name, or all missing when none did |
| AmnAcceptedInfo.FinalCellsFirst | automatchnames/get_accepted_info.py:294-321 | the first final row of a name is the first resolving stage's answer, carrying `Source` and `Sources` NaN when the exact-name stage answered it (that frame has no such columns) and otherwise the cells the caller's frame holds for the name |
| AmnAcceptedInfo.RecompiledAsWrittenCases | automatchnames/get_accepted_info.py:325-329 | the loop as written raises `KeyError` unless `Source` and `Sources` are columns of the final frame; otherwise every caller row gets the accepted columns and the `Source`/`Sources` cells of the first final row of its tidied name |
| AmnAcceptedInfo.AsWrittenOfStages | automatchnames/get_accepted_info.py:294-329 | over resolved stages the as-written loop gives every caller row the accepted columns of its name's stage answer, and `Source`/`Sources` that are NaN when the exact-name stage answered the name and otherwise the first caller row's cells for that tidied name |
| AmnAcceptedInfo.AsWrittenSourceColumns | automatchnames/get_accepted_info.py:315-329 | as written, a non-empty call whose names resolve succeeds exactly when `Source` and `Sources` come along; it then gives the corrected call's rows and accepted columns, but overwrites the caller's `Source` and `Sources`: NaN for a name the exact-name stage resolved, otherwise the cells of the first caller row with the same tidied name |
| WnmAcceptedInfo.FamiliesCheckAsWritten | wcvp_name_matching/get_accepted_info.py:350-357 | as written, on a non-empty frame the check raises `AttributeError` exactly when a family column and families of interest are both given, and never reports an inconsistency otherwise |
| AmnAcceptedInfo.AsWrittenRaisesOnPlainFrame | automatchnames/get_accepted_info.py:325-329 | a one-row frame whose name resolves raises `KeyError` as written but is answered by the corrected call |

## Left out

- TopLevelStrings.SpeciesIsSecondToken, AutomatchnamesStrings.SpeciesIsSecondToken
  and NameMatchingStrings.SpeciesIsSecondToken do not cover a second token
  that is a hybrid sign followed by more text. The source reads that token as
  the start of a hybrid epithet, and the hybrid cases have their own lemmas
  (`TopLevelStrings.HybridGenusSpecies` and its counterparts).
- Checklist acquisition is not modelled. This covers the download of the
  WCVP archive, its last-modified checks, zip and CSV reading, the md5-named
  cache of parsed files, and the `taxa_lists` download. All are network,
  file I/O and timestamps. The parsed checklist is an input sequence of rows.
  Where a matcher calls `get_all_taxa` itself, that call is a function
  parameter (`AmnAcceptedInfo.Services`).
- The name-matching service clients (`knms_name_matching.py` in both older
  generations) are HTTP calls with a file cache. Only their output is
  modelled, as a function parameter from submitted names to service records
  (`WnmAcceptedInfo.Setting`, `AmnAcceptedInfo.Services`).
- The OpenRefine reconciliation client, `open_reconciling.py` and
  `name_parsing.py` are not modelled, because they are HTTP wrappers. The
  reconciled rows are an input.
- The distribution and plotting code is not part of this model.
- The following are left out or simplified:
  - `_temp_output` diagnostic files and all `print` output are left out;
  - tqdm and swifter progress or parallel `apply` steps are plain maps.
- Helpers that these files import from files that are not part of this model
  are function parameters without a body of their own:
  - `remove_fullstop` and `tidy_authors` (`WcvpyMatching.Helpers`);
  - the `wcvpy` `clean_urn_ids` (`cleanUrnIds` in `WcvpyMatching`);
  - the `wcvpy` `status_priority` list (`statusPriority`);
  - the `wcvpy` `get_accepted_wcvp_info_from_ipni_ids_in_column` and
    `resolve_matches_by_priorities` used by the OpenRefine resolution (the
    `lookup` and `resolve` parameters of
    `WcvpyOpenrefine.ResolveOpenrefineToBestMatches`);
  - `tidy_families_in_column`.
- Family tidying in the `wcvp_name_matching` orchestrator is not modelled,
  because `tidy_families_in_column` is not part of this model. The model
  assumes that the submitted-family column holds the family as given.
- The automatchnames model looks ids up in the `kew_id` column of the
  `taxa_lists` checklist (`automatchnames/wcvp_matching.py:57`). That column
  is taken to hold the IPNI ids that the name-matching service, the
  auto-resolution step and the manual resolution file give. Nothing in the
  model checks this.
- AmnAcceptedInfo.AsWrittenSourceColumns: a manual resolution file that
  carries its own `Source` or `Sources` column is not modelled. The model
  takes the manual stage's rows to carry the caller's cells for the name.
- Python's `lower`, `upper`, `capitalize` and `isupper` are modelled on ASCII
  letters only. Other letters are left as they are.
- The `hybrid_character` that `automatchnames/get_accepted_info.py` imports
  for its genus guard comes from a file that is not part of this model. It is
  taken to be the multiplication sign `×`, the prefix that
  `automatchnames/string_utils.py` recognises.
- pandas' default single-key sort is not stable. Where the source sorts and
  then keeps the first row per key, the model keeps the first minimal row.
  Contracts promise only "a minimal row", because the source does not fix
  which tied row survives.
- Frames are modelled as values. Writing columns into the caller's frame
  becomes a returned frame, and aliasing between frames is not modelled.
  This affects:
  - `automatchnames/get_accepted_info.py:323-331`;
  - `wcvpy/wcvp_name_matching/wcvp_matching.py:63` and `:134`;
  - both `tidy_names_in_column`.
- In `WcvpyMatching` the submitted names are text. A missing submitted name,
  which pandas would carry as NaN through the lower-casing `apply`, is not
  modelled.
- `WcvpyOpenrefine.ResolveOpenrefineToBestMatches`: the reconciliation score
  is modelled as an integer (`PyVal.Num`), not a floating-point number.
  Only its comparison and maximum are used.
- `WnmAcceptedInfo.SubmissionKey`: the `repr` of the `(family, name)` list is
  simplified. Each item is written in single quotes, quotes inside a name are
  not escaped, and NaN is written as `nan`.

## Findings

| source | as written | input that shows it | evidently intended | confidence | as-written member | corrected member |
|---|---|---|---|---|---|---|
| wcvpy/wcvp_name_matching/resolve_openrefine_matches.py:53 | the top-score step compares `reco_score` with the string literal `'reco_score_max'`, not with the column of that name | a submitted name with two reconciled records of different accepted ids and scores 90 and 70: no row is kept as `openrefine_unique_top_score`, and both go on to priority resolution | keep, per submitted name, the rows whose score equals the group's maximum, and settle the name when exactly one row has that maximum | not executed | WcvpyOpenrefine.TopScoreAsWrittenNeverFires, WcvpyOpenrefine.TopScoreFindingExample | WcvpyOpenrefine.TopUniqueScorers |
| automatchnames/get_accepted_info.py:325-329 | the copy-back loop reads from `final_resolved_df` every column named in `COL_NAMES` (`automatchnames/string_utils.py:6-12`). That includes `Source` and `Sources`, which no resolution stage produces | a one-row frame with a name column and nothing else: the first read of `Source` raises `KeyError`. A caller frame that does carry `Source` and `Sources` gets them overwritten: with NaN for a name the exact-name stage resolved, and with the first row's cells for a second row of the same tidied name | the stages were expected to supply `Source` and `Sources` too, since `automatchnames/unit_tests/test_name_matching.py:65-67` reads every `COL_NAMES` column from the response; the corrected member shows one possible repair, copying back only the accepted columns the resolved frame holds | not executed | AmnAcceptedInfo.AsWrittenRaisesOnPlainFrame, AmnAcceptedInfo.AsWrittenSourceColumns | AmnAcceptedInfo.AcceptedInfoFromNames |
| wcvp_name_matching/get_accepted_info.py:352-357 | the families-of-interest consistency check calls `dropna()` on the result of `unique()`, which is a NumPy array without that method | any non-empty frame with `family_column` and `families_of_interest` both given, even one whose families are all of interest: `AttributeError` | raise `ValueError` for a family given in the family column that is not among the families of interest, and go on otherwise | not executed | WnmAcceptedInfo.FamiliesCheckAsWritten, WnmAcceptedInfo.FamiliesCheckAsWrittenRejectsConsistent | WnmAcceptedInfo.GetAcceptedInfoFromNamesInColumn |
