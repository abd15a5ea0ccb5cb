# alevin's BFH reader and transcript-to-gene map, in Dafny

This project models the core of salmon's `src/AlevinHash.cpp`, the
"hash mode" entry point of alevin. It covers three functions:

- `readBfh` parses the equivalence-class file ("BFH").
  - The file has a header of three counts, then the transcript names, then
    the cell barcodes (each must have the protocol's barcode length), then
    the equivalence classes.
  - Each class has a transcript label, a declared read count, and barcode
    groups of `(UMI, count)` entries.
  - Every UMI entry whose string packs is upserted into the class table
    under the class's label and added to the barcode's frequency.
  - Every entry, packed or not, adds to the class's validator sum. A class
    whose validator sum differs from its declared count fails the parse.
  - On success the function returns the sum of all validator sums; on
    failure it returns 0.
- `getTxpToGeneMap` builds the name-to-index catalog of the transcripts.
  - It folds the `(transcript, gene)` pairs of the gene-map file. Genes are
    numbered in order of first sight, and a transcript's entry is set to its
    gene's index.
  - It fails when some transcript index received no gene, reporting how
    many are missing.
- `salmonHashQuantify` runs both in order: parse, stop on zero reads, then
  build the gene tables.

Layout:

- `tokens.dfy` holds the input as a stream of number and word tokens, with
  readers and spellings.
- `loops.dfy` holds a generic counted loop and its agreement with a list
  decoder.
- `bfh_format.dfy` holds the file's layout as data, its token spelling, and
  a pure decoder.
- `eq_class_map.dfy` holds the class table and its upsert-or-merge.
- `aggregation.dfy` holds one UMI entry's effect and its fold.
- `bfh_semantics.dfy` holds what an acceptable file is and what it means.
- `bfh_reader.dfy` holds `readBfh` itself. The reader reads token by token
  and checks where the source checks, plus the two range checks listed
  under "Left out". It is proved equal to "decode, check, fold".
- `bfh_properties.dfy` holds the properties of a successful parse.
- `bfh_examples.dfy` holds a worked file.
- `gene_map.dfy` holds `getTxpToGeneMap`.
- `quantify.dfy` holds `salmonHashQuantify`.

## Model

All source paths are in `src/AlevinHash.cpp`.

| member | source | states |
|---|---|---|
| Tokens.ReadNat | src/AlevinHash.cpp:61-67 | Reading a number succeeds exactly when the next token is a number. The stream is then that number's token followed by what is left. |
| Tokens.ReadStr | src/AlevinHash.cpp:71 | Reading a word succeeds exactly when the next token is a word. The stream is then that word's token followed by what is left. |
| Tokens.ReadNatsOfNats | src/AlevinHash.cpp:101-102 | Reading `n` numbers from the spelling of `n` numbers returns those numbers, in order, and leaves whatever follows. |
| Tokens.ReadStrsOfStrs | src/AlevinHash.cpp:69-72 | Reading `n` words from the spelling of `n` words returns those words, in order, and leaves whatever follows. |
| Loops.RepeatAgrees | src/AlevinHash.cpp:96-155 | If one item reads as it decodes, a counted loop reads as the decoded list. It fails at the first failing or rejected item; otherwise it gives the state after every item in order. |
| BfhFormat.DecodeEncode | src/AlevinHash.cpp:60-155 | Decoding the spelling of any file gives back that file and leaves whatever follows it. |
| BfhFormat.DecodeSucceedsIff | src/AlevinHash.cpp:60-155 | Decoding succeeds exactly on streams that start with the spelling of some file, and then the stream is that spelling plus the rest. |
| EqClassMap.Merge | src/AlevinHash.cpp:125-129 | The merge adds the UMI count to the class total. It adds it to the (barcode, UMI) count and to no other pair, and it keeps the class value consistent. |
| EqClassMap.Fresh | src/AlevinHash.cpp:131 | The value inserted for a new key is the empty value merged with the triple, and it is consistent. |
| EqClassMap.Upsert | src/AlevinHash.cpp:125-132 | The keys grow by exactly the given key and no other key's value changes. An absent key receives the fresh value; a present key is merged, its total growing by the count. |
| EqClassMap.MergeTwiceAccumulates | src/AlevinHash.cpp:125-132 | Merging the same triple twice adds its count twice, both to the total and to the (barcode, UMI) count. |
| EqClassMap.AddUmiTotal | src/AlevinHash.cpp:128 | Folding a triple into the barcode groups adds its count to the sum of all per-barcode, per-UMI counts. |
| Aggregation.AddEntry | src/AlevinHash.cpp:122-134 | An entry whose UMI does not pack leaves both tables unchanged. A packing entry adds its label and its barcode name as keys, and adds its count to exactly that label and that barcode. |
| Aggregation.AggRecsClassCount | src/AlevinHash.cpp:116-137 | After a list of entries, a label's total has grown by the sum of the packing counts filed under it. |
| Aggregation.AggRecsClassKeys | src/AlevinHash.cpp:131-132 | After a list of entries, a label is a key exactly when it was a key before or some packing entry is filed under it. |
| Aggregation.AggRecsUmiCount | src/AlevinHash.cpp:128 | After a list of entries, a (label, barcode, packed UMI) count has grown by the counts of exactly the entries carrying that triple. |
| Aggregation.AggRecsFreq | src/AlevinHash.cpp:133 | After a list of entries, a barcode's frequency has grown by the packing counts filed under its name. |
| Aggregation.AggRecsConsistent | src/AlevinHash.cpp:125-132 | Every class value's total stays equal to the sum of its per-barcode, per-UMI counts. |
| BfhProperties.NumReadsZeroIff | src/AlevinHash.cpp:139-159 | On a file's spelling the returned number is 0 exactly when the file is not acceptable or declares no reads. Otherwise it is the sum of the declared counts. |
| BfhReader.ReadBarcodes | src/AlevinHash.cpp:74-82 | A successful read of the barcode list returns exactly `numBcs` barcodes, each of the protocol length. |
| BfhReader.ReadBarcodesAgrees | src/AlevinHash.cpp:74-82 | Reading the barcode list fails exactly when the list is short or some barcode has the wrong length; otherwise it gives the listed words. |
| BfhReader.ReadUmiAgrees | src/AlevinHash.cpp:117-135 | `ReadUmi` reads one UMI entry as it decodes. It never rejects a decoded entry, and it moves the state by the one-entry step: the entry folded into the tables and its count added to the validator sum. |
| BfhReader.ReadUmisAgrees | src/AlevinHash.cpp:116-136 | The UMI loop reads as the decoded entries threaded through the one-entry step. It fails only when the stream does not hold `ugroupSize` entries. |
| BfhReader.ThreadUmis | src/AlevinHash.cpp:116-136 | Threading a group's entries folds each one into the tables in order. It adds every count, packed or not, to the validator sum. |
| BfhReader.ThreadGroups | src/AlevinHash.cpp:109-137 | Threading a class's in-range groups folds all their entries in file order and adds the class's UMI counts to the validator sum. |
| BfhReader.ThreadClasses | src/AlevinHash.cpp:96-155 | Threading the classes folds all their entries in file order. It adds the sum of their validator sums to the running total. |
| BfhReader.ReadGroupAgreesAt | src/AlevinHash.cpp:110-136 | `ReadGroup` reads a barcode group as it decodes. It fails when the barcode index is outside the list, a check the source does not make (see "Left out"). |
| BfhReader.ReadGroupsAgrees | src/AlevinHash.cpp:109-137 | The barcode-group loop reads as the decoded groups, failing on the first out-of-range barcode index. |
| BfhReader.ReadClassAgreesAt | src/AlevinHash.cpp:97-146 | `ReadClass` reads a class as it decodes. It fails on an out-of-range index and on a declared count different from its validator sum. Otherwise it adds its validator sum to the running total and folds in its entries. |
| BfhReader.ReadClassesAgrees | src/AlevinHash.cpp:96-155 | The class loop reads as the decoded classes, stopping at the first unacceptable one. |
| BfhReader.ReadBfh | src/AlevinHash.cpp:74-82 | A successful parse returns only barcodes of the protocol length. |
| BfhReader.ReadBfhAgrees | src/AlevinHash.cpp:48-160 | `ReadBfh`, the token-by-token parse, equals "decode the file, then interpret it": nothing unless the file is acceptable, else its total and tables. |
| BfhProperties.ReadSpelled | src/AlevinHash.cpp:48-160 | Parsing the spelling of a file, whatever follows it, succeeds exactly when the file is acceptable, and then returns what the file means. |
| BfhProperties.ReadBfhSucceedsIff | src/AlevinHash.cpp:48-160 | The parse succeeds exactly when the stream starts with an acceptable file: every barcode of the protocol length, every index in range, every declared count met. |
| BfhProperties.SpelledResult | src/AlevinHash.cpp:148-159 | A successful parse returns the file's name lists, the sum of its validator sums, and the tables after its entries in file order. |
| BfhProperties.BadBarcodeFails | src/AlevinHash.cpp:74-82 | A barcode of the wrong length fails the parse wherever it stands, before any class is read, whatever follows it in the stream. |
| BfhProperties.TotalIsDeclared | src/AlevinHash.cpp:135-159 | The returned total equals the sum of the declared class counts. It also equals the sum of all UMI counts, packed or not. |
| BfhProperties.DeclaredIsValidated | src/AlevinHash.cpp:139-146 | In an acceptable class list the declared counts add up to the validator sums. |
| BfhProperties.ClassCountIsKeySum | src/AlevinHash.cpp:122-134 | A stored class total is the sum of the packing counts under its label, across every class of the file with that label. |
| BfhProperties.ClassKeys | src/AlevinHash.cpp:131-132 | A label is a key of the class table exactly when some packing UMI entry of the file is filed under it. |
| BfhProperties.TripleCount | src/AlevinHash.cpp:128 | A stored (label, barcode, packed UMI) count is the sum of the counts of the entries carrying that triple. |
| BfhProperties.FreqCount | src/AlevinHash.cpp:133 | A barcode's frequency grows by exactly the packing counts under its name. |
| BfhProperties.ClassValuesConsistent | src/AlevinHash.cpp:125-132 | Every stored class total equals the sum of its per-barcode, per-UMI counts. |
| BfhProperties.LabelsInRange | src/AlevinHash.cpp:99-103 | Every transcript index of every stored label is below the number of transcripts. This holds only because the model adds a range check that line 102 does not make. |
| BfhProperties.ClassSeenOnce | src/AlevinHash.cpp:108-146 | Take a label that occurs in one class only, all of whose UMIs pack. It stores exactly the count that class declares, and it is a key when that count is positive. |
| BfhExamples.ExampleRead | src/AlevinHash.cpp:48-160 | The worked file (label [0, 1], declared 3, UMIs of counts 2 and 1) yields 3 reads and exactly one class key. |
| BfhExamples.ExampleUmis | src/AlevinHash.cpp:122-134 | In the worked file the class total is 3, and the two UMIs hold 2 and 1 under barcode 0. |
| BfhExamples.ExampleFreq | src/AlevinHash.cpp:133 | In the worked file the barcode gains 3 reads. |
| BfhExamples.ExampleUnpackable | src/AlevinHash.cpp:122-135 | If one UMI of the worked file does not pack, the total is still 3, but the class and the barcode receive only 2. |
| BfhExamples.ExampleMismatch | src/AlevinHash.cpp:139-146 | Declaring any count other than 3 for the worked class fails the parse. |
| GeneMap.CatalogSpec | src/AlevinHash.cpp:9-13 | `Catalog`, the name-to-index table, holds exactly the listed names. Each name maps to its last position in the list. |
| GeneMap.CatalogLast | src/AlevinHash.cpp:9-13 | Every last position of a name is that name's catalog index. |
| GeneMap.CatalogDistinct | src/AlevinHash.cpp:9-13 | With distinct names, each name's catalog index is its position. |
| GeneMap.Step | src/AlevinHash.cpp:19-35 | A pair with an unlisted transcript changes nothing. Otherwise the gene gets an index: it keeps its old one, or a new gene takes `geneCount`, which grows by one. Earlier genes keep their indices, and the transcript's entry becomes the gene's index. |
| GeneMap.Build | src/AlevinHash.cpp:15-36 | After folding the pairs in file order, every gene index and every transcript entry is below `geneCount`. Only catalogued transcript indices receive entries. |
| GeneMap.StepTwice | src/AlevinHash.cpp:18-19 | Handing the same pair over twice in a row has the effect of handing it over once. |
| GeneMap.TrailingRepeat | src/AlevinHash.cpp:18-19 | A repeated last pair, which the end-of-file test lets through, leaves both tables as they were. |
| GeneMap.BuildGenes | src/AlevinHash.cpp:15-33 | A gene's index is its position among the distinct genes of the listed transcripts' pairs, in order of first sight. `geneCount` is their number. |
| GeneMap.GeneIndicesDense | src/AlevinHash.cpp:15-33 | Gene indices are exactly `0 .. geneCount - 1`, and no two genes share one. |
| GeneMap.GeneIndexStable | src/AlevinHash.cpp:26-28 | Once assigned, a gene's index never changes. |
| GeneMap.TxpKeys | src/AlevinHash.cpp:21-35 | A transcript index has an entry exactly when some pair names a listed transcript with that catalog index. |
| GeneMap.LastPairWins | src/AlevinHash.cpp:35 | A transcript's entry is the gene index of the last pair naming it; later pairs overwrite earlier ones. |
| GeneMap.TxpGenesNamed | src/AlevinHash.cpp:35 | Every entry holds the index of some gene. |
| GeneMap.TxpKeysBelow | src/AlevinHash.cpp:9-24 | Every entry is keyed by a valid transcript index. |
| GeneMap.CoveredIff | src/AlevinHash.cpp:9-35 | Index `k` gets an entry exactly when `k` is the last position of its name and some pair names that transcript. |
| GeneMap.GetTxpToGeneMap | src/AlevinHash.cpp:3-46 | On success the transcript table has an entry for exactly the indices `0 .. n - 1`. On failure the reported number of missing transcripts is between 1 and `n`. |
| GeneMap.GetSucceedsIff | src/AlevinHash.cpp:39-45 | The check passes exactly when the transcript names are distinct and every one is named by some pair. |
| GeneMap.GetFailureCounts | src/AlevinHash.cpp:39-45 | On failure the reported number is positive. It equals the number of transcript indices without an entry. |
| GeneMap.GetSuccessComplete | src/AlevinHash.cpp:39-45 | On success every transcript index `0 .. n - 1` has an entry, and every entry is below `geneCount`. |
| GeneMap.NoPairs | src/AlevinHash.cpp:17-45 | A gene-map file that cannot be opened reads as no pairs. The check then fails with the number of transcripts, or passes with empty tables when there are none. |
| Quantify.SalmonHashQuantify | src/AlevinHash.cpp:179-209 | A successful run has read a positive number of reads and has a gene entry for exactly the transcript indices `0 .. n - 1`. A failure for missing genes reports a positive count. |
| Quantify.QuantifySpelled | src/AlevinHash.cpp:179-209 | On a file's spelling the run succeeds exactly when four things hold. The file is acceptable. It declares a positive number of reads. Its transcripts are distinct. Each transcript is named in the gene-map file. |
| Quantify.QuantifySucceedsIff | src/AlevinHash.cpp:179-209 | The run succeeds exactly when the stream starts with the spelling of such a file. |
| Quantify.EmptyFileFatal | src/AlevinHash.cpp:186-195 | A file that declares no reads stops the run as an unreadable file does, even when the file is acceptable. |
| Quantify.LabelsHaveGenes | src/AlevinHash.cpp:186-209 | On success, every transcript of every stored label has a gene entry below `geneCount`. This rests on the range check the model adds at line 102; the source can store a label whose index has no gene. |

## Left out

- File input is a token stream. A token is a number or a word, as `>>`
  would split the file. A short stream, or a word where a number belongs,
  fails the parse here. The C++ stream differs in both cases. At end of
  stream `>>` stores nothing, so the uninitialised counts of lines 58 and
  97-119 keep indeterminate values, which is undefined behaviour. A word
  where a number belongs stores 0 once, and then nothing more is read. A
  short barcode list is the exception: it leaves an empty name from the
  resize at line 74, which fails line 77 and returns 0, as here.
- A word made only of digits is a number token here. Examples are a
  transcript or barcode name such as `12345`, or a UMI string such as
  `1234`. `ReadStr` refuses such a token, so the file fails the parse. The
  source's `>>` into a string accepts it at lines 71, 76 and 120. For a UMI
  string, `fromChars` then fails, but the count still goes into the
  validator sum (line 135), so the source accepts the file.
- The barcode index of a group (line 114) and the transcript indices of a
  label (line 102) are not checked in the source. Using an unlisted barcode
  index is undefined behaviour. Here both fail the parse.
- A class key is the transcript index list as read. `TranscriptGroup` is
  not part of this model. Two labels listing the same indices in different
  orders are therefore different keys here.
- UMI packing (`AlevinUMIKmer::fromChars`, `word(0)`) is a parameter
  `encode: string -> Option<nat>`. It gives None where packing fails.
- `SCTGValue::updateBarcodeGroup` is modelled as adding the count to a
  barcode-to-UMI-to-count table. Its source is not part of this model.
- The frequency table's initial contents are a parameter. The class table
  starts empty, as it does at its only caller (line 179).
- `uint32_t` and `size_t` wrap-around of counts, the validator sum and the
  total is not modelled, because counts are unbounded naturals.
- Logging and progress output (lines 78-79, 88-94, 140-144, 149-156,
  174-175, 183-184, 192-193, 197-199, 203) are omitted.
- A failed parse returns `None` and drops the partial work. The source
  has by then already added to the caller's frequency table (line 133) and
  resized `txpNames` and `bcNames` (lines 69, 74) before returning 0. Those
  changes are not observable, because the caller exits on 0 (line 194).
- `bcNames[i].size()` at line 77 counts bytes, while `|s|` here counts
  characters. The two agree for barcodes over `ACGTN`.
- BfhProperties.LabelsInRange: holds only in the model. The source reads
  transcript indices unchecked (line 102) and stores the label as read
  (line 132).
- Quantify.LabelsHaveGenes: holds only in the model, for the same reason.
  In the source a stored label can name a transcript index with no gene
  entry.
- The hash map's thread and capacity settings (lines 84-85) are omitted.
- The two exits (`exit(1)` at line 44, `exit(74)` at line 194) become
  `Failure` values.
- The gene-map file is its list of `(transcript, gene)` pairs, or no pairs
  when it cannot be opened (line 17). The end-of-file loop (lines 18-19)
  may hand the last pair over twice. `GeneMap.TrailingRepeat` shows that
  this changes nothing.
- The whitelist (lines 168-176), `GZipWriter` and `alevinOptimize` (lines
  211-213) are outside the core.
- The template instantiations after line 215 are outside the core.
