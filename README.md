# Card cleaner model

A Dafny model of the transformation stage of the MTG card analyser
(`src/transform/cleaner.py`). The cleaner takes scraped card rows (Name, Edition, Price,
Type, Mana Cost) and turns them into four normalised tables:

- the card detail table;
- the edition lookup;
- the subtype lookup;
- the card-subtype link table.

Along the way it:

- removes the "Cheapest Recent Printing - " prefix from editions;
- drops the price;
- splits split and double-faced cards (`A // B`) into one row per face;
- parses each type line into Super_Type, Primary_Type and a comma-separated Subtypes_List;
- parses each mana cost (`sym_3 sym_W sym_B`) into CMC, Generic_Mana and the Is_Hybrid,
  Is_X and six colour flags;
- numbers the faces with Card_ID;
- replaces subtypes and editions by IDs into lookup tables.

Modules, one per layer of the cleaner:

| module | models |
|---|---|
| `Wrappers` | `Option` and `Result` |
| `Text` | the Python string operations the cleaner relies on: `str.strip`, `str.split()` and `str.split(sep)`, `" ".join`, `str.replace(p, "")`, `str.upper`, `str.isdigit`, `in`, `startswith`. Whitespace is Python's full `str.isspace` set. |
| `TypeLine` | `clean_types` and `SUPER_TYPES_MTG` |
| `ManaCost` | `parse_mana_cost` and `COLOURS`. A token is first classified (`Classify`, in the branch order of the source) and then folded into the running row (`Apply`, `Tally`). The method `ParseManaCostLoop` is the source's loop, with the flags updated step by step. |
| `Faces` | `process_card_face` and the per-row branch of the `run_cleaner` loop (`ExpandRow`) |
| `Normalise` | `normalise_subtypes` and `normalise_edition`, on sequences of records standing for the DataFrames |
| `Cleaner` | `run_cleaner`, both as a function (`Clean`) and as the source's loop (`RunCleaner`, `ExpandRows`, `AppendFaces`), with the properties of the four tables it returns |

Pure helpers are functions, and the statements they make are lemmas. Where the source
loops and mutates a row or list, there is a method whose loop invariants prove it equal
to the specification function:
- `SortTypeWords`
- `ReadHalves`
- `ParseManaCostLoop`
- `ExpandRows`

Around these loops are methods that are the loop bodies or the surrounding function.
Each has no loop of its own and is proved equal to its specification function:
- `ParseTypeLine`
- `ReadToken`
- `AppendSplitFaces`
- `AppendFaces`
- `RunCleaner`

## Model

| member | source | states |
|---|---|---|
| TypeLine.FirstDashIff | src/transform/cleaner.py:62 | the split point of `re.split(r"\s*[-—]\s*", s, 1)` is the first hyphen or em dash; None exactly when there is none |
| TypeLine.Pick | src/transform/cleaner.py:79-84 | every word appended to a list is a main word of that kind (super-type or not), and no more words than there are |
| TypeLine.PickSplits | src/transform/cleaner.py:79-84 | the super-type and primary-type lists together hold every main word exactly once (multiset) |
| TypeLine.PickKeeps | src/transform/cleaner.py:79-84 | every main word of a kind lands in that kind's list |
| TypeLine.SortTypeWords | src/transform/cleaner.py:75-84 | the loop appends exactly the super-type words, in order, to `super_types` and the others to `primary_types` |
| TypeLine.ParseTypeLine | src/transform/cleaner.py:42-93 | the imperative `clean_types` computes the same fields as the specification function `CleanTypes` |
| TypeLine.CleanTypesBlank | src/transform/cleaner.py:53-59 | an empty or blank type line gives three empty fields, and Subtypes_List never holds whitespace |
| TypeLine.CleanTypesByTokens | src/transform/cleaner.py:53-91 | Super_Type and Primary_Type are the main tokens before the first dash, of each kind, joined by spaces; Subtypes_List is the tokens after the dash joined by commas, and empty without a dash |
| TypeLine.NoDashNoSubtypes | src/transform/cleaner.py:67-70 | a type line without a dash has an empty Subtypes_List |
| TypeLine.SubtypesAfterFirstDash | src/transform/cleaner.py:62-70 | Subtypes_List is the comma join of the tokens after the first dash, each non-empty and free of whitespace |
| TypeLine.SuperPrimaryPartition | src/transform/cleaner.py:73-91 | a main token is in Super_Type exactly when its upper case is in SUPER_TYPES_MTG and in Primary_Type otherwise, in original order and case; together the two fields hold every main token once |
| TypeLine.TypeLineOfWords | src/transform/cleaner.py:42-93 | for a line "main words - subtype words", with either a hyphen or an em dash, the result is the main words split by kind and the subtypes joined by commas |
| TypeLine.LegendaryCreatureWords | src/transform/cleaner.py:26-34 | "Legendary" is a super-type and "Creature" is not, so the "Legendary Creature" words split into Super_Type "Legendary" and Primary_Type "Creature" |
| TypeLine.ArtifactWords | src/transform/cleaner.py:26-34 | "Artifact" is not a super-type, so the main words of "Artifact - Equipment" give an empty Super_Type and Primary_Type "Artifact" |
| ManaCost.ColourOf | src/transform/cleaner.py:22 | a string is in COLOURS exactly when it is the letter of one colour, and that colour is returned |
| ManaCost.UpperKeepsSlash | src/transform/cleaner.py:113-115 | upper-casing neither adds nor removes a `/`, so the hybrid test sees the raw remainder's slash |
| ManaCost.HalfColoursNamed | src/transform/cleaner.py:127-132 | the colours a hybrid symbol sets are exactly the halves that are a colour letter |
| ManaCost.ClassifyBranches | src/transform/cleaner.py:109-153 | a token is hybrid exactly when its `strip("sym_")` remainder holds `/`, costing 2 exactly when it starts with `sym_2/`; otherwise a colour letter, otherwise a digit run (its value); it is X exactly when the remainder upper-cases to `X`, and ignored exactly when none of these holds |
| ManaCost.Apply | src/transform/cleaner.py:115-153 | one token adds its CMC and generic amount, adds its colours, and only ever sets Is_Hybrid and Is_X |
| ManaCost.ParseManaCostBlank | src/transform/cleaner.py:102-106 | an empty or blank cost gives CMC 0, Generic_Mana 0 and every flag False |
| ManaCost.TallyLast | src/transform/cleaner.py:108 | helper unfolding of the fold: one more token at the end applies its symbol to the row so far, so the tokens are read left to right |
| ManaCost.CmcIsSumOfContributions | src/transform/cleaner.py:108-153 | CMC and Generic_Mana are the sums of the tokens' contributions, and Generic_Mana never exceeds CMC |
| ManaCost.GenericAtMostCmc | src/transform/cleaner.py:141-147 | the generic contributions never exceed the CMC contributions |
| ManaCost.ColourFlagsFromTokens | src/transform/cleaner.py:130-139 | a colour flag is set exactly when some token contributes that colour |
| ManaCost.HybridFlagFromTokens | src/transform/cleaner.py:115-117 | Is_Hybrid is set exactly when some token is hybrid |
| ManaCost.HybridIffSlash | src/transform/cleaner.py:115-117 | Is_Hybrid is set exactly when some token's remainder holds `/` |
| ManaCost.XFlagFromTokens | src/transform/cleaner.py:149-153 | Is_X is set exactly when some token is X |
| ManaCost.XIffText | src/transform/cleaner.py:149-153 | Is_X is set exactly when some token's remainder upper-cases to `X` |
| ManaCost.ApplyCommutes | src/transform/cleaner.py:115-153 | two tokens read in either order leave the same row |
| ManaCost.TallyOrderIndependent | src/transform/cleaner.py:108-153 | token sequences that are permutations of each other give the same row |
| ManaCost.ParseIgnoresTokenOrder | src/transform/cleaner.py:106-155 | two costs with the same tokens up to order parse alike |
| ManaCost.ReadHalves | src/transform/cleaner.py:130-132 | the inner loop over the halves of a hybrid adds exactly the colours the halves name |
| ManaCost.ReadToken | src/transform/cleaner.py:109-153 | the loop body over one token updates the row as the specification `Apply(row, Classify(part))` says |
| ManaCost.ParseManaCostLoop | src/transform/cleaner.py:96-155 | the imperative `parse_mana_cost` returns the specification function's row |
| ManaCost.ParseJoinedTokens | src/transform/cleaner.py:106 | `split()` of whitespace-free tokens joined by single spaces gives those tokens back, so the cost is their fold |
| ManaCost.ClassifyNumberToken | src/transform/cleaner.py:141-147 | `sym_<d>` for an ASCII digit is generic mana of value d |
| ManaCost.ClassifyColourToken | src/transform/cleaner.py:134-139 | `sym_<C>` for a colour letter is one pip of that colour |
| ManaCost.ClassifyVariableToken | src/transform/cleaner.py:149-153 | `sym_x` and `sym_X` are the variable cost |
| ManaCost.ClassifyTwoHybrid | src/transform/cleaner.py:115-132 | `sym_2/<c>`, in either case, is a hybrid costing 2 with the single colour c |
| ManaCost.NumberThenColour | src/transform/cleaner.py:108-147 | a digit token then a colour token give CMC n+1, Generic_Mana n and that one flag |
| ManaCost.NumberThenTwoColours | src/transform/cleaner.py:108-147 | a digit token and two colour tokens give CMC n+2, Generic_Mana n and both flags |
| ManaCost.SampleCosts | tests/test_cleaner.py:177-244 | the tokens of `sym_3 sym_W sym_B` (read back from the text by ManaCost.ParseJoinedTokens) give CMC 5, Generic 3, W and B; `sym_2 sym_B` gives 3, 2, B; `sym_1 sym_W` gives 2, 1, W |
| ManaCost.HybridAndVariableCost | src/transform/cleaner.py:115-153 | `sym_2/u sym_x` gives CMC 2, Is_Hybrid, Is_X, U and no generic mana |
| Faces.SingleFace | src/transform/cleaner.py:348-349 | helper unfolding of `ExpandRow` and `process_card_face`: a row whose Type has no `//` is one face with the row's name, edition, type fields and mana |
| Faces.FaceCount | src/transform/cleaner.py:313-349 | a row gives one face exactly when its Type has no `//`; two exactly when it does and Name and Type each split in two; none (skipped) otherwise |
| Faces.SplitFaces | src/transform/cleaner.py:313-347 | each face of a split row takes the trimmed Name part and the Type part on its side of the `//`, and the row's edition |
| Faces.SplitMana | src/transform/cleaner.py:318-346 | when the cost of a split row holds `//`, the first face parses the first part of the cost split at `//` and the second face the second part |
| Faces.ManaFallback | src/transform/cleaner.py:317-322 | when the cost of a split row has no `//`, the first face gets the whole cost and the second gets nothing (CMC 0, no flag) |
| Faces.EditionKept | src/transform/cleaner.py:164 | every face keeps the row's cleaned Edition |
| Faces.ParseOfStrip | src/transform/cleaner.py:336 | trimming a cost does not change what it parses to |
| Faces.CleanTypesOfStrip | src/transform/cleaner.py:335 | trimming a type line does not change its fields |
| Normalise.DistinctSpec | src/transform/cleaner.py:189 | `drop_duplicates` keeps each value once, adds none, and keeps first-seen order |
| Normalise.NonEmptyStrippedIff | src/transform/cleaner.py:183-185 | the kept pieces are exactly the non-empty stripped parts |
| Normalise.AllPiecesIff | src/transform/cleaner.py:182-185 | a name is in the exploded subtype series exactly when some card lists it |
| Normalise.NonEmptyPieces | src/transform/cleaner.py:183-185 | every kept piece is non-empty and trimmed |
| Normalise.SubtypeIdsDense | src/transform/cleaner.py:188-195 | the subtype lookup numbers its distinct names 1..K in order |
| Normalise.SubtypeNamesListed | src/transform/cleaner.py:182-192 | the lookup names exactly the subtypes some card lists, each non-empty and trimmed |
| Normalise.SubtypeFirstSeenOrder | src/transform/cleaner.py:188-192 | the lookup lists subtypes in the order they first appear |
| Normalise.NamedPairsIff | src/transform/cleaner.py:198-216 | the exploded link frame holds (c, p) exactly when the card with Card_ID c lists p |
| Normalise.MergedLinksIff | src/transform/cleaner.py:218-220 | the left merge replaces each name by the Subtype_ID whose lookup row holds it |
| Normalise.SubtypeLinksSpec | src/transform/cleaner.py:198-224 | the link table has no duplicate rows, and holds (c, s) exactly when s is a lookup ID whose name card c lists |
| Normalise.EditionIdsDense | src/transform/cleaner.py:241-245 | the edition lookup numbers the distinct editions 1..E in order |
| Normalise.EditionNamesListed | src/transform/cleaner.py:241 | the edition lookup names exactly the cards' editions, in first-seen order |
| Normalise.EditionIdsResolve | src/transform/cleaner.py:248-264 | every card keeps its row, in order, with an Edition_ID whose lookup row names its edition |
| Cleaner.CleanEditionDropsPrefix | src/transform/cleaner.py:289-294 | a leading "Cheapest Recent Printing - " is removed: the cleaned edition is that of the rest |
| Cleaner.CleanEditionTrims | src/transform/cleaner.py:289-294 | the cleaned edition is trimmed, and text without the prefix is only trimmed |
| Cleaner.CleanEditionOfPrefixed | src/transform/cleaner.py:289-294 | the prefix followed by a trimmed name (as "Cheapest Recent Printing - Unfinity") cleans to that name |
| Cleaner.AppendSplitFaces | src/transform/cleaner.py:313-347 | the split-card branch appends exactly that row's faces (two, or none when skipped) |
| Cleaner.AppendFaces | src/transform/cleaner.py:309-349 | the loop body appends exactly the row's faces |
| Cleaner.ExpandRows | src/transform/cleaner.py:303-349 | the loop builds `final_rows` as the faces of every row, row after row |
| Cleaner.RunCleaner | src/transform/cleaner.py:275-371 | the imperative `run_cleaner` returns the specification `Clean` |
| Cleaner.NoFacesIff | src/transform/cleaner.py:308-349 | `final_rows` is empty exactly when every row is a split row whose Name or Type does not split in two |
| Cleaner.FailsOnlyWithoutFaces | src/transform/cleaner.py:351-363 | the cleaner fails (the source's KeyError on Subtypes_List) exactly when every prepared row is skipped |
| Cleaner.NumberedFacts | src/transform/cleaner.py:351-357 | helper unfolding of the numbering and the subtype-column drop: one fact row per face, in order, with Card_ID i+1 and the face's columns |
| Cleaner.NumberedDetails | src/transform/cleaner.py:351-366 | each face's card-table row carries its columns and an Edition_ID naming its edition |
| Cleaner.CardDetailsSpec | src/transform/cleaner.py:351-366 | a successful run's card table has one row per face, Card_ID running 1..N, the face's columns, and an Edition_ID whose lookup row names the face's edition |
| Cleaner.NumberedLinks | src/transform/cleaner.py:351-363 | links of numbered faces hold (c, s) exactly when face c lists subtype s |
| Cleaner.LinksSpec | src/transform/cleaner.py:363 | a successful run's link table has no duplicates, and (c, s) is a link exactly when 1 <= c <= N, s is a Subtype_ID, and face c lists that subtype, so every link resolves |

## Left out

- Logging (`logger.info`, `logger.warning`), the output directory and `main.py` are not part of this model. Logging does not change any result.
- DataFrame mechanics are modelled as sequences of records: `copy`, `reset_index`, the `rename`s and the column reordering. `CardDetail`'s fields follow the final column order. Pandas dtypes, the index and NaN propagation are not modelled.
- A cell of a type other than text or missing is not modelled. A missing Edition becomes the text "nan", as `astype(str)` makes it. A missing Type or Mana Cost becomes "", as `fillna("")` makes it. A float or number cell that `astype(str)` would render is not modelled.
- Name is taken to be text. A missing Name on a split row would make the source fail on `.split`, and that path is not modelled.
- Price is read into `RawRow` and never used, which is the model of dropping the column.
- The drop of the "Mana Cost" column after numbering (src/transform/cleaner.py:358-360) has no counterpart. The face rows never have that key, so the drop changes nothing.
- An empty face list makes the source raise KeyError at `df["Subtypes_List"]`. The model returns `Failure(NoCardFaces)` instead.
- `str.isdigit` is modelled on ASCII digits only. Python also accepts other Unicode digits, and `int()` then fails on some of them, such as superscripts.
- `str.upper` is modelled as ASCII a-z plus U+0131 and U+017F, the only other characters whose upper case is a single ASCII letter. Other upper-case mappings cannot produce a super-type word or a colour letter, so the membership tests agree with Python.
- The regex split `\s*[-—]\s*` with maxsplit 1 is modelled as a cut at the first hyphen or em dash, with both halves stripped. The leftmost match ends at the first dash, and both halves are stripped anyway.
- TypeLine.CleanTypesByTokens, SubtypesAfterFirstDash, SuperPrimaryPartition: stated over the tokens of the trimmed type line rather than the raw text, since `clean_types` trims first.
- Full literal examples of cleaned type lines ("Legendary Creature - Human Rogue", "Artifact — Equipment", "Artifact - Equipment") are stated through TypeLine.TypeLineOfWords for any words of that shape, with a hyphen or an em dash. The concrete super-type tests are in TypeLine.LegendaryCreatureWords and TypeLine.ArtifactWords. The whole literal is not evaluated.
