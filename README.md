# solrmarc core, modelled in Dafny

This project models seven pieces of solrmarc, the library that reads MARC
bibliographic records and turns them into Solr index documents.

- **MarcCombiningReader** (`CombiningReader.dfy`) reads ahead over a lower-level
  MARC reader and merges each run of consecutive physical records that share an
  identity string into the first record of the run. The identity is the control
  number, or a selected control field or data-field subfield.
  - The reader is a class with the two buffers `currentRecord` and `nextRecord`.
  - `hasNext` and `next` are proved against a specification of the logical
    record stream, `Assemble`: what the reader has yet to deliver (`Rest()`)
    always equals that stream.
  - Both `combineRecords` overloads change the record in place and are proved
    against value-level merge functions.
- **MarcMultiplexReader** (`MultiplexReader.dfy`) reads a list of readers one
  after another. `hasNext` and `next` keep the pulls still to be delivered
  (`Remaining()`) equal to the readers' pending pulls, concatenated in list
  order. The log of reader names is kept as a value.
- **PatternMapping** (`PatternMapping.dfy`) is one regex rewrite rule.
  - The constructor scans the output template for `$N` group references. The
    scan is modelled exactly as written, including `Integer.parseInt` on the
    text that `replaceFirst("[^0-9].*", "")` leaves.
  - The constructor's loop, `mapSingleValue` and `mapValues` are methods
    proved against the functions `MaxGroup`, `Chain` and `Fanout`.
  - The regex engine is abstract.
- **SingleLinkedDataFieldSpecification** (`SingleLinkedSpec.dfy`) selects the 880
  fields whose first linkage subfield `6` starts with the linked tag. The model
  covers its constructors, its copy and `specMatches`.
- **MethodCallMultiValueMapping** (`MethodCallMapping.dfy`) copies the parameter
  array shifted by one place and hands it to an abstract method call.
- **RawRecordReader** (`RawRecordReader.dfy`) works on a byte sequence in place
  of a file.
  - `parseRecordLength` reads the record length from the first five characters
    of the 24-byte record label (ISO 2709 positions 0-4, MARC 21 Leader/00-04).
  - The loop of `main` copies every record whose ISO-8859-1 body contains the
    search string. It is proved against `Filter`, which is a split of the input
    into records followed by a filter over them.
- **PropertyUtil** (`PropertyUtil.dfy`) covers three things:
  - `getProperty` precedence;
  - the ordered search for a properties file in `getPropertyFileAbsoluteURL`;
  - the choice of XML or plain loader in `loadProperties`.

  The file system, URLs and the classpath are function-valued oracles.

Three supporting modules:

- `Wrappers` holds `Option`, which stands for Java null, and `Result`, which
  stands for an exception.
- `Marc` holds the record model: an identity, an ordered field sequence and an
  error list. It also holds `RecordSource`, the lower-level MARC reader, modelled
  as a sequence of pull outcomes plus a cursor.
- `Decimal` holds decimal text and `Integer.parseInt`.

Source paths below are relative to the repository root.

## Model

| member | source | states |
|---|---|---|
| Marc.GetSubfieldIsFirst | src/main/java/org/solrmarc/marc/MarcCombiningReader.java:157 | getSubfield finds nothing iff no subfield has the code; otherwise it finds the earliest one that has it |
| Marc.RecordSource.Next | src/main/java/org/solrmarc/marc/MarcCombiningReader.java:91 | a pull advances the cursor by exactly one. It yields a fresh record holding the pending value, or the failure recorded at that position |
| Decimal.Show | src/main/java/org/solrmarc/marc/MarcMultiplexReader.java:42 | `"" + n` is at least one ASCII digit, with no leading zero |
| Decimal.ValueOfShow | src/main/java/org/solrmarc/marc/MarcMultiplexReader.java:42 | the decimal text of n reads back as n |
| Decimal.ValueOfZeroPrefix | src/org/solrmarc/marc/RawRecordReader.java:34 | leading zeros (as in a zero-padded record length) do not change the value |
| Decimal.ParseInt | src/org/solrmarc/marc/RawRecordReader.java:34 | every value Integer.parseInt accepts fits in 32 bits |
| Decimal.ParseDigits | src/playground/solrmarc/index/extractor/impl/patternMapping/PatternMapping.java:37 | a non-empty string of ASCII digits parses to its decimal value iff that value is at most 2^31-1, and fails otherwise |
| Decimal.ParseShow | src/playground/solrmarc/index/extractor/impl/patternMapping/PatternMapping.java:37 | parseInt inverts the decimal text of every int-sized natural number |
| CombiningReader.FindControlFieldIsFirst | src/main/java/org/solrmarc/marc/MarcCombiningReader.java:136-163 | findControlField is null iff no field with the selector's 3-character tag yields a value. Otherwise it is the value of the earliest field that yields one: a control field's data, or the data of the data field's subfield named at index 4 (default `a`) |
| CombiningReader.FirstYieldIsFirst | src/main/java/org/solrmarc/marc/MarcCombiningReader.java:140-161 | the loop over fields returns the first field's yield, and only when every earlier field yields nothing |
| CombiningReader.DataFieldWithoutSubfieldYieldsNothing | src/main/java/org/solrmarc/marc/MarcCombiningReader.java:150-159 | a data field lacking the selected subfield is skipped |
| CombiningReader.RecordsMatch | src/main/java/org/solrmarc/marc/MarcCombiningReader.java:170-208 | true iff both records are present, the left identity is non-null, and the left identity equals the right one; two null identities never match |
| CombiningReader.MatchingAppend | src/main/java/org/solrmarc/marc/MarcCombiningReader.java:212-219 | filtering fields by tag pattern distributes over concatenation, so order is kept |
| CombiningReader.MatchingMembers | src/main/java/org/solrmarc/marc/MarcCombiningReader.java:212-219 | a field is kept iff it occurs and its tag matches |
| CombiningReader.SplitIsPermutation | src/main/java/org/solrmarc/marc/MarcCombiningReader.java:229-239 | the removed anchor fields and the kept fields together are a permutation of the original fields |
| CombiningReader.MergedExtends | src/main/java/org/solrmarc/marc/MarcCombiningReader.java:210-225 | merging keeps the identity and all existing fields as a prefix. It adds exactly next's matching fields, and the errors become current's followed by next's |
| CombiningReader.MergedBeforeIsPermutation | src/main/java/org/solrmarc/marc/MarcCombiningReader.java:227-260 | the anchored merge only moves current's fields: the result is a permutation of current's fields plus next's matching fields |
| CombiningReader.MergeRun | src/main/java/org/solrmarc/marc/MarcCombiningReader.java:105-124 | a run consumes a prefix of the pulls. The first pull it leaves is a decoded record that does not continue the merged record |
| CombiningReader.MergeRunKeepsFirst | src/main/java/org/solrmarc/marc/MarcCombiningReader.java:105-124 | the merged record keeps the first record's identity, and its fields and errors extend the first record's |
| CombiningReader.AssembleWithoutContinuations | src/main/java/org/solrmarc/marc/MarcCombiningReader.java:69-128 | when no record continues its predecessor, every record passes through unchanged and in order |
| CombiningReader.AssembleMergesContinuation | src/main/java/org/solrmarc/marc/MarcCombiningReader.java:105-125 | a record followed by a continuation comes out as one record: the first record's fields, then the continuation's merged fields, with the errors of both |
| CombiningReader.AssembleNeverLonger | src/main/java/org/solrmarc/marc/MarcCombiningReader.java:69-128 | the logical stream is never longer than the physical one |
| CombiningReader.MarcCombiningReader.constructor | src/main/java/org/solrmarc/marc/MarcCombiningReader.java:52-58 | both buffers are empty, and the records still to deliver are the assembled stream of the lower reader's pulls |
| CombiningReader.MarcCombiningReader.RecordsMatchRefs | src/main/java/org/solrmarc/marc/MarcCombiningReader.java:170-175 | recordsMatch on the two buffers is true iff both are non-null and the lookahead continues the current record |
| CombiningReader.MarcCombiningReader.HasNext | src/main/java/org/solrmarc/marc/MarcCombiningReader.java:60-67 | returns true iff a logical record remains, buffering it and leaving what remains unchanged. Returns false at the end of input, or fails with the stream's failure. With a record already buffered it pulls nothing, so repeated calls give the same answer |
| CombiningReader.MarcCombiningReader.Buffer | src/main/java/org/solrmarc/marc/MarcCombiningReader.java:64 | buffering a complete record prepends it to what the reader has yet to deliver |
| CombiningReader.MarcCombiningReader.Next | src/main/java/org/solrmarc/marc/MarcCombiningReader.java:69-128 | returns exactly the first remaining logical record and drops it from what remains; a record buffered by hasNext is the one returned. Returns null when nothing remains, or raises the failure (with the control number when a record is current) |
| CombiningReader.MarcCombiningReader.PullAndMerge | src/main/java/org/solrmarc/marc/MarcCombiningReader.java:80-125 | after the buffers are shifted, pulls a lookahead and merges continuations. Either the reader still delivers exactly the assembled stream of the buffered record and the pending pulls, or it fails with that stream's failure: "couldn't get next after" the control number, or "couldn't be read" |
| CombiningReader.MarcCombiningReader.MergeContinuations | src/main/java/org/solrmarc/marc/MarcCombiningReader.java:105-124 | the loop leaves the current record equal to the merged record of the run and the lookahead as the first non-matching pull, or fails exactly as the run does |
| CombiningReader.MarcCombiningReader.PullNext | src/main/java/org/solrmarc/marc/MarcCombiningReader.java:109-123 | after a merge, the new lookahead is the next pull, or null when the reader is exhausted; a broken pull reports its cause |
| CombiningReader.MarcCombiningReader.AppendMatching | src/main/java/org/solrmarc/marc/MarcCombiningReader.java:212-219 | appends exactly the matching fields in their order, and leaves errors alone |
| CombiningReader.MarcCombiningReader.CombineRecords | src/main/java/org/solrmarc/marc/MarcCombiningReader.java:210-225 | returns the same object, now holding Merged(current, next): next's errors are appended only when it has any |
| CombiningReader.MarcCombiningReader.RemoveMatching | src/main/java/org/solrmarc/marc/MarcCombiningReader.java:229-239 | removes the fields matching the anchor pattern in place, returns them in order, and keeps the others in order |
| CombiningReader.MarcCombiningReader.CombineRecordsBefore | src/main/java/org/solrmarc/marc/MarcCombiningReader.java:227-260 | returns the same object, with its fields in this order: non-anchor fields, next's matching fields, then the anchor fields in their original order. When both arguments are one record, its own non-anchor fields are merged |
| MultiplexReader.SwitchNames | src/main/java/org/solrmarc/marc/MarcMultiplexReader.java:42-45 | switching to n readers logs n names |
| MultiplexReader.SwitchNamesAt | src/main/java/org/solrmarc/marc/MarcMultiplexReader.java:42 | the k-th name logged is reader k's name: its entry in readerNames while there is one, else the count so far |
| MultiplexReader.ReaderNameIsNumber | src/main/java/org/solrmarc/marc/MarcMultiplexReader.java:42 | once the names run out, the logged name is the decimal text of readerCnt |
| MultiplexReader.MarcMultiplexReader.constructor | src/main/java/org/solrmarc/marc/MarcMultiplexReader.java:27-33 | no reader is current and nothing is logged; what remains is every reader's pulls, in list order |
| MultiplexReader.MarcMultiplexReader.HasNext | src/main/java/org/solrmarc/marc/MarcMultiplexReader.java:36-54 | returns true iff pulls remain, and then the current reader has one. What remains is unchanged. The loop only appends to the log. Returning false leaves no current reader and every reader switched past, so later calls also return false |
| MultiplexReader.MarcMultiplexReader.Exhausted | src/main/java/org/solrmarc/marc/MarcMultiplexReader.java:47-51 | with every reader switched past and the current one empty, nothing remains and the current reader becomes null |
| MultiplexReader.MarcMultiplexReader.SwitchReader | src/main/java/org/solrmarc/marc/MarcMultiplexReader.java:40-46 | the next reader in list order becomes current, its name is appended to the log, and what remains is unchanged |
| MultiplexReader.MarcMultiplexReader.TakeName | src/main/java/org/solrmarc/marc/MarcMultiplexReader.java:42 | the name is the name iterator's next entry while there is one, else the decimal readerCnt |
| MultiplexReader.MarcMultiplexReader.Next | src/main/java/org/solrmarc/marc/MarcMultiplexReader.java:57-60 | delivers exactly the first remaining pull and drops it, without switching readers |
| MultiplexReader.PendingsAppend | src/main/java/org/solrmarc/marc/MarcMultiplexReader.java:36-60 | the pulls of a list of readers split at any point are those of the first part followed by those of the second |
| MultiplexReader.PendingsSkipsExhausted | src/main/java/org/solrmarc/marc/MarcMultiplexReader.java:38-46 | an exhausted reader contributes nothing and is skipped |
| PatternMapping.DigitRun | src/playground/solrmarc/index/extractor/impl/patternMapping/PatternMapping.java:36 | the leading digit run is no longer than the text |
| PatternMapping.DigitRunIsMaximal | src/playground/solrmarc/index/extractor/impl/patternMapping/PatternMapping.java:36 | the run is all digits and is followed by a non-digit or the end |
| PatternMapping.DigitRunOfDigits | src/playground/solrmarc/index/extractor/impl/patternMapping/PatternMapping.java:36 | a string of digits is a single run |
| PatternMapping.FromLineEnd | src/playground/solrmarc/index/extractor/impl/patternMapping/PatternMapping.java:36 | what `.*` leaves is empty or starts at a line terminator |
| PatternMapping.NumText | src/playground/solrmarc/index/extractor/impl/patternMapping/PatternMapping.java:36 | the replaceFirst never lengthens the text after the `$` |
| PatternMapping.NumTextParse | src/playground/solrmarc/index/extractor/impl/patternMapping/PatternMapping.java:36-37 | parseInt accepts the replaceFirst's text only when that text is exactly the non-empty digit run after the `$`, and then it gives the run's value |
| PatternMapping.IndexOf | src/playground/solrmarc/index/extractor/impl/patternMapping/PatternMapping.java:39 | indexOf returns -1 or a position at or after `from` that holds the character |
| PatternMapping.IndexOfIsFirst | src/playground/solrmarc/index/extractor/impl/patternMapping/PatternMapping.java:39 | no position before the found one (or before the end, at -1) holds the character |
| PatternMapping.NumberEnd | src/playground/solrmarc/index/extractor/impl/patternMapping/PatternMapping.java:39 | the search for the next `$` resumes strictly after the current one, within the template |
| PatternMapping.ScanFromStep | src/playground/solrmarc/index/extractor/impl/patternMapping/PatternMapping.java:36-39 | one loop turn: the scan goes on from the next `$` after the parsed text, with the larger maximum |
| PatternMapping.GroupAtIsValue | src/playground/solrmarc/index/extractor/impl/patternMapping/PatternMapping.java:36-37 | the group number after a `$` is the decimal value of its whole digit run |
| PatternMapping.ScanFromAttained | src/playground/solrmarc/index/extractor/impl/patternMapping/PatternMapping.java:34-40 | a successful scan ends at least at the starting maximum, and above it only by a `$` that carries that number |
| PatternMapping.ScanFromCovers | src/playground/solrmarc/index/extractor/impl/patternMapping/PatternMapping.java:34-40 | a successful scan sees every later position: each `$` there is followed by digits whose number is at most the result |
| PatternMapping.MaxGroupSound | src/playground/solrmarc/index/extractor/impl/patternMapping/PatternMapping.java:30-40 | for an accepted template, every `$` is followed by a digit, every group number is at most the result, and the result is 0 or one of those numbers |
| PatternMapping.DollarWithoutDigitFails | src/playground/solrmarc/index/extractor/impl/patternMapping/PatternMapping.java:36-37 | a `$` not followed by a digit (a trailing `$`, `$$`, `\$x`) makes construction fail |
| PatternMapping.WholeDigitRunIsOneGroup | src/playground/solrmarc/index/extractor/impl/patternMapping/PatternMapping.java:36-39 | `$12` refers to group 12 |
| PatternMapping.LineTerminatorAfterGroupFails | src/playground/solrmarc/index/extractor/impl/patternMapping/PatternMapping.java:36 | `$1 \n` fails: the text after the first non-digit survives from the line terminator on, so parseInt rejects it |
| PatternMapping.OverflowingGroupFails | src/playground/solrmarc/index/extractor/impl/patternMapping/PatternMapping.java:37 | a group number beyond 2^31-1 makes parseInt fail |
| PatternMapping.CheckAccepted | src/playground/solrmarc/index/extractor/impl/patternMapping/PatternMapping.java:23-46 | an accepted rule's template refers only to groups its pattern has |
| PatternMapping.CheckUnknownGroup | src/playground/solrmarc/index/extractor/impl/patternMapping/PatternMapping.java:41-45 | IndexerSpecException reports the largest group number used, which exceeds the group count |
| PatternMapping.CheckWithoutDollar | src/playground/solrmarc/index/extractor/impl/patternMapping/PatternMapping.java:30-41 | a template without `$` is never rejected by the group check |
| PatternMapping.ChainAppend | src/playground/solrmarc/index/extractor/impl/patternMapping/PatternMapping.java:48-58 | the rules apply in list order to an evolving value: chaining a + b is chaining b over a's result |
| PatternMapping.ChainUnhandled | src/playground/solrmarc/index/extractor/impl/patternMapping/PatternMapping.java:48-58 | rules that cannot handle the value leave it unchanged; the empty list is the identity |
| PatternMapping.FanoutMembers | src/playground/solrmarc/index/extractor/impl/patternMapping/PatternMapping.java:60-70 | mapValues adds s iff s is non-empty and is the result of some rule that handles the original value |
| PatternMapping.OrderIndexIgnored | src/playground/solrmarc/index/extractor/impl/patternMapping/PatternMapping.java:48-75 | neither routine depends on orderIndex: rule lists that agree on patterns and templates give the same results |
| PatternMapping.PatternMapping.constructor | src/playground/solrmarc/index/extractor/impl/patternMapping/PatternMapping.java:23-28 | stores the matcher, the template and orderIndex; the matcher starts reset to the empty string |
| PatternMapping.PatternMapping.Create | src/playground/solrmarc/index/extractor/impl/patternMapping/PatternMapping.java:23-46 | the constructor throws the first of: syntax error, rejected trial replacement, NumberFormatException with the scanned text, unknown group. Otherwise it builds the rule with the given orderIndex (the value getOrderIndex returns) |
| PatternMapping.PatternMapping.ScanGroups | src/playground/solrmarc/index/extractor/impl/patternMapping/PatternMapping.java:30-40 | the loop computes MaxGroup of the template, or fails with the text parseInt rejected |
| PatternMapping.PatternMapping.CanHandle | src/playground/solrmarc/index/extractor/impl/patternMapping/PatternMapping.java:77-80 | resets the shared matcher to the value and answers find |
| PatternMapping.PatternMapping.Map | src/playground/solrmarc/index/extractor/impl/patternMapping/PatternMapping.java:90-93 | rewrites the input canHandle last saw, not its own argument |
| PatternMapping.ValueCollection.Add | src/playground/solrmarc/index/extractor/impl/patternMapping/PatternMapping.java:67 | appends one value to the collection |
| PatternMapping.MapSingleValue | src/playground/solrmarc/index/extractor/impl/patternMapping/PatternMapping.java:48-58 | returns Chain(rules, value), and leaves each rule's matcher on the value it last tested |
| PatternMapping.MapSingleStep | src/playground/solrmarc/index/extractor/impl/patternMapping/PatternMapping.java:50-56 | one turn of the loop extends the chain by rule i |
| PatternMapping.MapValues | src/playground/solrmarc/index/extractor/impl/patternMapping/PatternMapping.java:60-70 | only appends to values, and appends exactly Fanout(rules, value); every matcher is left on the original value |
| SingleLinkedSpec.Linkage | src/main/java/org/solrmarc/index/specification/SingleLinkedDataFieldSpecification.java:35-36 | the linkage is present iff the field has a subfield `6`, and then it is the data of the first one |
| SingleLinkedSpec.SingleLinkedDataFieldSpecification.constructor | src/main/java/org/solrmarc/index/specification/SingleLinkedDataFieldSpecification.java:12-17 | lnkTag is the configured tag without its first three characters, and tags[0] is "880" |
| SingleLinkedSpec.SingleLinkedDataFieldSpecification.WithoutCondition | src/main/java/org/solrmarc/index/specification/SingleLinkedDataFieldSpecification.java:19-22 | the two-argument constructor is the three-argument one with a null condition |
| SingleLinkedSpec.SingleLinkedDataFieldSpecification.Copy | src/main/java/org/solrmarc/index/specification/SingleLinkedDataFieldSpecification.java:24-29 | the copy has the same lnkTag, subfields and condition, and a fresh tags array whose slot 0 is "880" |
| SingleLinkedSpec.SingleLinkedDataFieldSpecification.MakeThreadSafeCopy | src/main/java/org/solrmarc/index/specification/SingleLinkedDataFieldSpecification.java:43-47 | a new object sharing no tags array, with the same lnkTag and tags[0] == "880", that matches exactly the fields the original matches |
| SingleLinkedSpec.SingleLinkedDataFieldSpecification.SpecMatches | src/main/java/org/solrmarc/index/specification/SingleLinkedDataFieldSpecification.java:31-41 | true iff the tag is "880" and the field's first subfield `6` starts with lnkTag. The cast throws iff the tag is "880" and the field is a control field |
| SingleLinkedSpec.OtherTagsNeverMatch | src/main/java/org/solrmarc/index/specification/SingleLinkedDataFieldSpecification.java:35-40 | any tag other than "880" gives false, whatever the field, without a cast |
| SingleLinkedSpec.UnlinkedFieldNeverMatches | src/main/java/org/solrmarc/index/specification/SingleLinkedDataFieldSpecification.java:35-40 | an 880 data field without subfield `6` does not match |
| SingleLinkedSpec.EmptyLinkMatchesEveryLinkedField | src/main/java/org/solrmarc/index/specification/SingleLinkedDataFieldSpecification.java:15-36 | with an empty lnkTag, every 880 data field that has subfield `6` matches |
| SingleLinkedSpec.OnlyFirstLinkageCounts | src/main/java/org/solrmarc/index/specification/SingleLinkedDataFieldSpecification.java:35-36 | the first subfield `6` alone decides |
| MethodCallMapping.Shifted | src/playground/solrmarc/index/mapping/impl/MethodCallMultiValueMapping.java:17-18 | the stored layout is one longer than the parameters: slot 0 null, then the parameters in order |
| MethodCallMapping.Parameters | src/playground/solrmarc/index/mapping/impl/MethodCallMultiValueMapping.java:18 | reading back skips exactly the free slot: parameter i is the value in slot i + 1, and there is one fewer parameter than slots |
| MethodCallMapping.ParametersOfShifted | src/playground/solrmarc/index/mapping/impl/MethodCallMultiValueMapping.java:17-18 | the stored layout loses nothing: the parameters read back unchanged |
| MethodCallMapping.MethodCallMultiValueMapping.constructor | src/playground/solrmarc/index/mapping/impl/MethodCallMultiValueMapping.java:14-19 | the stored array is freshly allocated and holds the shifted layout of the given parameters |
| MethodCallMapping.MethodCallMultiValueMapping.Map | src/playground/solrmarc/index/mapping/impl/MethodCallMultiValueMapping.java:22-25 | returns exactly the method call's result on the values and the shifted parameters, or its exception |
| RawRecordReader.LengthText | src/org/solrmarc/marc/RawRecordReader.java:27-32 | exactly five characters, one per label byte |
| RawRecordReader.ParseRecordLengthOfField | src/org/solrmarc/marc/RawRecordReader.java:27-39 | a label headed by the five zero-padded digits of a length below 100000 parses back to that length |
| RawRecordReader.NextRecord | src/org/solrmarc/marc/RawRecordReader.java:55-58 | a record is read only when its label parses to a length of at least 24 that fits in the remaining input |
| RawRecordReader.EndOfInputIsTruncation | src/org/solrmarc/marc/RawRecordReader.java:55-58 | the loop stops silently iff the input ends inside a label, or inside a record whose label declares a valid length |
| RawRecordReader.SplitRecordsTile | src/org/solrmarc/marc/RawRecordReader.java:53-58 | the records are consecutive slices of the input from its start, each exactly its declared length; reading stops for the reason the rest of the input gives |
| RawRecordReader.SplitRecordsWellFormed | src/org/solrmarc/marc/RawRecordReader.java:55-58 | every record is at least a label long, and its label declares its length |
| RawRecordReader.Latin1 | src/org/solrmarc/marc/RawRecordReader.java:62 | ISO-8859-1 decoding gives one character per byte, with the byte's value |
| RawRecordReader.ContainsFindsOccurrence | src/org/solrmarc/marc/RawRecordReader.java:69 | when contains is true, the search string occurs at some position |
| RawRecordReader.OccurrenceIsContained | src/org/solrmarc/marc/RawRecordReader.java:69 | an occurrence at any position makes contains true |
| RawRecordReader.ContainsIsOccurrence | src/org/solrmarc/marc/RawRecordReader.java:69 | contains holds iff some position starts an occurrence of the search string |
| RawRecordReader.Keep | src/org/solrmarc/marc/RawRecordReader.java:69-73 | only selected records of the input are written |
| RawRecordReader.KeepAppend | src/org/solrmarc/marc/RawRecordReader.java:53-74 | written records keep input order across consecutive runs of records |
| RawRecordReader.KeepSelected | src/org/solrmarc/marc/RawRecordReader.java:69-73 | every selected record is written |
| RawRecordReader.FilterWritesExactlyTheMatches | src/org/solrmarc/marc/RawRecordReader.java:53-78 | a record is written iff it is a complete record of the input whose body contains the search string |
| RawRecordReader.ReadFully | src/org/solrmarc/marc/RawRecordReader.java:55 | fills the buffer with the next bytes iff enough input remains; otherwise it reports end of input |
| RawRecordReader.ReadRecord | src/org/solrmarc/marc/RawRecordReader.java:55-58 | one iteration reads the label and a body of length minus 24, which together are the next record, or it stops as NextRecord says |
| RawRecordReader.FilterRecords | src/org/solrmarc/marc/RawRecordReader.java:45-86 | the loop writes exactly Filter(input, needle) (label then body, unchanged, in input order) and stops for Filter's reason |
| PropertyUtil.GetProperty | src/playground/solrmarc/tools/PropertyUtil.java:52-64 | the empty name fails with the IllegalArgumentException of System.getProperty. Otherwise a set system property wins; then props' value when props is non-null and defines the name; then the default |
| PropertyUtil.GetPropertyOrNull | src/playground/solrmarc/tools/PropertyUtil.java:32-35 | fails exactly on the empty name; otherwise null iff neither source defines the name, and any value agrees with the three-argument lookup |
| PropertyUtil.SystemPropertyOverrides | src/playground/solrmarc/tools/PropertyUtil.java:55-58 | a system property hides both the table and the default |
| PropertyUtil.GetPropertySources | src/playground/solrmarc/tools/PropertyUtil.java:52-64 | the lookup never invents a value |
| PropertyUtil.Candidates | src/playground/solrmarc/tools/PropertyUtil.java:305-336 | the bare name, then File(path_i, name) for each path in order. No paths means no candidates |
| PropertyUtil.FirstReadable | src/playground/solrmarc/tools/PropertyUtil.java:309-336 | the first readable candidate, with none readable before it; none when none is readable |
| PropertyUtil.ResourceURL | src/playground/solrmarc/tools/PropertyUtil.java:341-350 | the classpath lookup fails iff both the class-loader and the class lookup find nothing |
| PropertyUtil.FirstReadableWins | src/playground/solrmarc/tools/PropertyUtil.java:305-336 | the first readable candidate with a URL decides the result, whatever later candidates and the classpath hold |
| PropertyUtil.BareNameFirst | src/playground/solrmarc/tools/PropertyUtil.java:307-311 | a readable bare name is used before any directory |
| PropertyUtil.NoPathsMeansClasspath | src/playground/solrmarc/tools/PropertyUtil.java:305-345 | without a path list only the classpath is consulted |
| PropertyUtil.NotFoundExactly | src/playground/solrmarc/tools/PropertyUtil.java:305-350 | IllegalArgumentException iff the first readable file (if any) has no URL and neither classpath lookup finds the name |
| PropertyUtil.GetPropertyFileAbsoluteURL | src/playground/solrmarc/tools/PropertyUtil.java:296-364 | the do-while computes AbsoluteURL. It writes inputSource[0] (the absolute path) only when a file URL was made and inputSource has length at least 1, and changes nothing else |
| PropertyUtil.MixedCaseIsPlain | src/playground/solrmarc/tools/PropertyUtil.java:151 | the XML loader is chosen for ".xml" and ".XML" and not for other casings |
| PropertyUtil.Parse | src/playground/solrmarc/tools/PropertyUtil.java:149-159 | the table comes from the loader the name selects; an IOException becomes an error |
| PropertyUtil.OpenURL | src/playground/solrmarc/tools/PropertyUtil.java:185-200 | fails iff the stream cannot be opened |
| PropertyUtil.LoadPropertiesFromURL | src/playground/solrmarc/tools/PropertyUtil.java:102-126 | an unopenable URL fails. A loaded table is what the loader chosen by the URL's suffix reads from the stream |
| PropertyUtil.LoadProperties | src/playground/solrmarc/tools/PropertyUtil.java:140-172 | finds, opens and parses the file, then sets filenameProperty to the found file's directory when both are present |
| PropertyUtil.ClasspathSetsNoFilenameProperty | src/playground/solrmarc/tools/PropertyUtil.java:160-165 | a file found only on the classpath never sets the filename property |

## Left out

- The regex engine is abstract:
  - tag patterns (`matches(idsToMerge)`, `matches(fieldInsertBefore)`) are predicates on tags;
  - PatternMapping's `find`, `replaceAll`, `groupCount` and the trial `replaceAll` over the empty input (which may throw) are fields of the `Regex` datatype.
  - `tag.matches(tagstart)` inside findControlField is taken as equality, since both tags are literal three-character tags.
- marc4j internals are not modelled: how a `Record` stores control and data fields, `getControlNumber`, and the decoder behind the lower-level reader. A record is an identity, a field sequence and an error list. A reader is a sequence of decoded records or failures.
- CombiningReader.MarcCombiningReader.constructor: requires both selectors to be absent, exactly 3 characters long, or at least 5 characters long (`ValidSelector`). The source accepts any selector and throws only inside a lookup:
  - `substring(0,3)` throws for a selector shorter than 3, and runs only when recordsMatch compares two non-null records;
  - `charAt(4)` throws for a 4-character selector, and runs only when the lookup reaches a data field carrying the selector's tag.
  - A configuration with such a selector therefore works in the source on inputs that never reach the throwing call, for example one record alone, or a selector whose tag never appears as a data field. The model excludes these configurations altogether, and it does not model the exception either.
- CombiningReader.MarcCombiningReader.Next: only the `Exception` that reader.next() throws is modelled as a failure; runtime exceptions inside merging are not. Exception message text is kept only as the choice between "couldn't get next record after" with the control number and "couldn't be read".
- MultiplexReader.MarcMultiplexReader.constructor: requires the readers to be distinct objects (`Distinct`). The source accepts a collection listing the same reader twice. On the second visit it logs the name, finds the reader exhausted and skips it. The model keeps what remains as the concatenation of every listed reader's pending pulls, and that would count a shared reader's pulls twice, so repeated readers are not modelled.
- MultiplexReader.MarcMultiplexReader.Next: requires a current reader with a record left, which is the hasNext/next protocol. Calling next without a current reader (a null dereference in the source) is not modelled.
- Logging of reader switches is kept only as the `switchLog` value; log output itself is left out.
- PatternMapping.MapValues: `values` is an arbitrary `Collection<String>` in the source. The model is an appending list (`ValueCollection`), so its postcondition `values.items == old(values.items) + Fanout(rules, value)` describes a list-like collection. For a set-like collection, adding a duplicate changes nothing, and that is not modelled.
- MethodCallMapping: the reflective call behind `MultiValueMappingMethodCall.invoke` is an abstract function value. The given parameters are taken as non-null strings.
- MethodCallMapping.MethodCallMultiValueMapping.Map: the source hands its own `parameters` array to `invoke` by reference. The model passes a copy of its contents, so it assumes that invoke does not write into the array, slot 0 included. Aliasing of the array and concurrent calls of `map` are not modelled.
- SingleLinkedSpec: the superclass SingleDataFieldSpecification (subfield selection and condition evaluation) is not part of this model. A `Condition` is kept only as a value.
- SingleLinkedSpec.SingleLinkedDataFieldSpecification.constructor: requires a configured tag of at least 3 characters, where `substring(3)` would otherwise throw.
- SingleLinkedSpec.SingleLinkedDataFieldSpecification.Copy: the `tags` array belongs to the superclass, which is not part of this model. The model assumes three things about it. The array has length 1 and holds the configured tag until slot 0 is overwritten with "880". `super(toClone)` allocates a new array rather than sharing the original's (`fresh(tags)`). So a copy made by `makeThreadSafeCopy` shares no tags array with the original.
- RawRecordReader: file opening, `System.out` writes and logging are left out. The output is the sequence of written records, each label plus body.
- RawRecordReader.ParseRecordLength: the label's five bytes become five characters one byte each. The platform default charset of `InputStreamReader` is not modelled.
- Decimal.ParseInt accepts only ASCII digits. Java's `Integer.parseInt` also accepts other Unicode decimal digits, which never reach it here: the `$N` scan keeps only `[0-9]`, and the label bytes become characters below 256.
- RawRecordReader: a declared length below 24 is modelled as the explicit stop `NegativeBodyLength`, where the source throws an uncaught NegativeArraySizeException.
- PropertyUtil: the following are oracles:
  - the file system: existence, readability, `File(parent, name)`, absolute paths, `toURI().toURL()`;
  - the classpath lookups;
  - opening a URL;
  - `Properties.load` and `loadFromXML`.
- PropertyUtil: `System.getProperty` is an input map; its refusal of the empty name is the `EmptyKey` failure, and a null name cannot be expressed. The defaults chain of `java.util.Properties` is not modelled; a table is a plain map.
- PropertyUtil: the `showName` and `marc.test.verbose` logging and the "looked in" message text are left out. The `loadProperties` and `getPropertyFileInputStream` overloads that only forward `showName = false` or `filenameProperty = null` are covered by `PropertyUtil.LoadProperties` with those arguments.
- PropertyUtil: `readStreamIntoString` is stream I/O and is left out. So is the closing of streams.
