# Confit verification

Confit is a host-side configuration tool. It loads options, profiles and targets, checks the
dependency graph of the options, merges layered values into a resolved configuration, and prints and
hashes deterministic texts. This project models the parts that decide those results and proves what
each promises for all inputs.

| part | modules |
|---|---|
| streaming SHA-256 | `Sha256Spec`, `Sha256Constants`, `Sha256Example`, `Sha256` |
| options, values and their per-write check | `Model`, `CategoryPath` |
| dependency graph checker | `GraphSpec`, `GraphLaws`, `Graph` |
| resolver | `Text`, `Pigeonhole`, `ResolverSpec`, `Resolver`, `ResolverLaws`, `ResolverLayers` |
| printers, their readers, and the hash | `Builder`, `Concat`, `Numerals`, `Escapes`, `Scalars`, `Literals`, `LuaRecords`, `ResolvedText`, `JsonReader`, `PrintedShapes`, `Fnv` |
| decoders of quoted strings | `Decoders`, `CompatLines` |
| TOML line scanner against the TOML printers | `TomlSpec`, `TomlScan`, `TomlLaws`, `TomlBalance`, `TomlLines`, `TomlForms`, `TomlPrinters`, `TomlReader` |
| input manifest and compatibility report | `InputManifest`, `CompatReport` |

Code that works by updating state is a class or a method with loops, proved against functions
on values; the laws are lemmas about those functions.

Functions that both a method and its specification use (constants, truthiness, edge kinds, line forms,
escapes, comparisons) are pinned a second time by lemmas that do not mention them: the SHA constants by
the roots they are and by a published digest, the resolver and the graph checker by the options and
values alone, the printed texts by reading them back, the scanner by the lines it accepts and rejects.

Conventions of the model:

- A C string is the `string` before its terminator. A character is one byte; where the byte matters
  (C and Lua escapes) the code is below 256, and the hash takes the code modulo 256. A null pointer
  is `None` where the source treats it differently from an empty string.
- Option ids are distinct, which the schema loader guarantees. Profile and target names need not be:
  the first match is taken, as the source does.
- SHA-256 words are 32-bit vectors and its bit counter is reduced modulo 2^64; the FNV hash is a number
  modulo 2^64; printed integers are the 64-bit ranges.
- The dependency status and the conflict status are the same number (include/confit/status.h:25-27),
  so they are one status here. This is why the status of a resolution does not depend on the order
  of the options although the first failing reference does.

Where the documentation and the code differ, the model follows the code:

- With no explicit target the header promises the selected profile's target; the code takes the
  nearest target in the base chain. `ResolverLaws.TargetFollowsHeader` says exactly when they agree
  and `ResolverLaws.TargetOfBaseIsInherited` is a case where they do not.
- The header asks for dependency and conflict validation of overrides; the resolver enforces only
  `requires` and `conflicts`, not `recommends`, `forces` or `visible_if`.
- The scanner counts each kind of bracket by itself, so `[{]}` passes; it counts the columns of a
  table header from the bracket, and takes `null` and any other bare word as a value.
- The resolved JSON copies control bytes other than LF, CR and TAB as they are. The reading lemmas
  therefore claim that it can be decoded uniquely, not that it conforms to RFC 8259.
- The second cycle guard of the profile stack is never taken, by the pigeonhole principle.

## Model

| member | source | states |
|---|---|---|
| Sha256.HashPieces | src/cli/main.c:1834-1886 | However a message is cut into update calls, the result is the FIPS 180-4 digest of the concatenation. |
| Sha256.Hasher.Final | src/cli/main.c:1856-1886 | The output is the FIPS 180-4 digest of everything absorbed, over both padding branches, length field modulo 2^64. |
| Sha256.Hasher.Update | src/cli/main.c:1834-1854 | Appends the data to the message; compressed blocks, buffer and bit counter stand for the whole message again. |
| Sha256.Hasher.AppendPadding | src/cli/main.c:1862-1877 | One bit, then exactly the zero fill of section 5.1.1, whether one block or two are used. |
| Sha256.Hasher.CompressPadded | src/cli/main.c:1861-1881 | After the last compression the state is the hash of the padded message, block by block. |
| Sha256.Hasher.Transform | src/cli/main.c:1744-1832 | The in-place compression is section 6.2.2 with the recursive schedule. |
| Sha256.Hasher.ExpandSchedule | src/cli/main.c:1780-1791 | The 64-entry array holds the recursively defined message schedule. |
| Sha256.Hasher.RunRounds | src/cli/main.c:1793-1822 | The loop over eight variables performs the 64 rounds of section 6.2.2 step 3. |
| Sha256.Hasher.constructor | src/cli/main.c:1731-1742 | A new hasher stands for the empty message. |
| Sha256.LoadBigEndian | src/cli/main.c:1718-1721 | The word of four bytes at an offset, most significant first. |
| Sha256.StoreBigEndian | src/cli/main.c:1723-1729 | Replaces exactly four bytes by those of the word. |
| Sha256Spec.WordBytesRoundTrip | src/cli/main.c:1718-1729 | Loading what was stored gives the word back. |
| Sha256Spec.ZeroFill | src/cli/main.c:1865-1877 | The fill is the smallest that completes a block before the length field. |
| Sha256Spec.SerializeInjective | src/cli/main.c:1883-1885 | The digest bytes determine the state words. |
| Sha256.Hex | src/cli/main.c:1888-1903 | The two-digit text of the digest of a text. |
| Sha256.HexTextInjective | src/cli/main.c:1898-1901 | The hexadecimal text determines the bytes. |
| Sha256Constants.RoundConstants | src/cli/main.c:1746-1768 | The 64 round constants are the first 32 fractional bits of the cube roots of the listed primes (section 4.2.2 of FIPS 180-4). |
| Sha256Constants.InitialHash | src/cli/main.c:1731-1742 | The initial state holds the first 32 fractional bits of the square roots of the first eight primes (section 5.3.3). |
| Sha256Constants.PrimesAreComplete | src/cli/main.c:1746-1768 | The list holds every prime up to 311 and nothing else. |
| Sha256Constants.PrimesAscend | src/cli/main.c:1746-1768 | The list is in ascending order, so the constants belong to the first 64 primes one by one. |
| Sha256Constants.BigSigmaBits | src/cli/main.c:1803-1810 | Each bit of the large sigmas is the exclusive or of three named bits of the word. |
| Sha256Constants.SmallSigmaBits | src/cli/main.c:1784-1789 | The same for the small sigmas, whose third term shifts zeros in. |
| Sha256Constants.ChoiceBits | src/cli/main.c:1806-1811 | Bit by bit a choice and a majority. |
| Sha256Example.DigestOfAbc | src/cli/main.c:1744-1886 | The digest of the three bytes 61, 62, 63 is the published one, through padding, schedule, 64 rounds and serialization. |
| Sha256Example.HexSpelled | src/cli/main.c:1888-1903 | Lower-case digits, the high one first. |
| Model.ValidateValue | src/core/model.c:1147-1208 | Ok exactly for the values an option admits: empty, or of its kind, finite, listed and in range. |
| Model.ValidateRange | src/core/model.c:1095-1145 | Ok exactly for values of the range's own kind between its ends. |
| Model.EnumContains | src/core/model.c:1079-1093 | Membership in the candidate list. |
| Model.AdmittedValues | src/core/model.c:1095-1208 | What each option type stores, spelled out case by case with bounds, candidates and the limit of doubles. |
| Model.InactiveValues | src/resolver/resolver.c:260-281 | Exactly empty, false, zero of any kind and empty texts are inactive. |
| Graph.Build | src/graph/graph.c:149-230 | Fails exactly on a self edge or an unknown target, naming the first bad option; otherwise nodes and edges are the options and dependencies one for one, in order. |
| Graph.DependencyGraph.FindNodeIndex | src/graph/graph.c:110-124 | The first node with the id, or none. |
| Graph.DependencyGraph.DfsHasCycle | src/graph/graph.c:232-262 | A three-colour search that either returns a real cycle or extends the finish order, keeping the colours consistent with path and order; it terminates. |
| Graph.DependencyGraph.ValidateCycles | src/graph/graph.c:264-293 | Fails exactly when a directed cycle of non-conflict edges exists and names an option on one; on success there is a topological order. |
| GraphSpec.FinishOrderExcludesCycles | src/graph/graph.c:232-262 | A finish order of all nodes rules out every cycle. |
| GraphSpec.FinishOrderIsTopological | src/graph/graph.c:232-262 | In a finish order the target of each non-conflict edge comes before its source. |
| GraphSpec.EdgesAreGood | src/graph/graph.c:177-226 | Every edge of a good project joins two different known options. |
| GraphSpec.IdCycleHasNodes | src/graph/graph.c:110-124 | Each cycle of option ids is a cycle of node indices that the search can find. |
| GraphSpec.CyclesDependOnEdgeSet | src/graph/graph.c:264-293 | Neither order nor multiplicity of edges changes whether there is a cycle. |
| Graph.BuiltCycles | src/graph/graph.c:149-293 | On a built graph the index search decides the existence of a cycle of option ids. |
| Graph.DependencyGraph.IsInternalId | src/graph/graph.c:295-297 | Whether `.internal.` occurs in the id. |
| Graph.DependencyGraph.NodeHasRequires | src/graph/graph.c:299-310 | Whether some requires edge leaves the option. |
| Graph.DependencyGraph.ValidateForces | src/graph/graph.c:312-343 | Fails exactly when a forced target is visible, not internal or has requirements; names the first offender. |
| Graph.DependencyGraph.SameUnorderedPair | src/graph/graph.c:141-147 | Whether two edges join the same two ids in any direction. |
| Graph.DependencyGraph.ValidateConflicts | src/graph/graph.c:345-373 | Fails exactly when a pair carries a conflict and a requires or forces edge; names the first such conflict. |
| Graph.DependencyGraph.Validate | src/graph/graph.c:375-394 | Accepts exactly the acyclic, force-respecting, contradiction-free graphs, which have a topological order. |
| Graph.CheckProject | src/graph/graph.c:149-394 | For distinct ids, build and validate accept exactly the projects whose dependencies are known and can be put in order, conflicts aside, and that keep the forces and conflict rules, all stated on options alone. |
| GraphLaws.OrderExcludesCycles | src/graph/graph.c:132-293 | For distinct ids an order in which dependencies other than conflicts come first rules out every cycle the checker rejects. |
| GraphLaws.KnownIffGood | src/graph/graph.c:198-216 | The build accepts exactly when no option depends on itself or on an unknown one. |
| GraphLaws.ForcesByOptions | src/graph/graph.c:312-343 | The forces rule on options: what is forced has no prompt, is named internal and requires nothing. |
| GraphLaws.ConflictsByOptions | src/graph/graph.c:136-147 | The conflict rule on options: no two both conflict and require or force one another, in any direction. |
| ResolverSpec.ChainIsDistinct | src/resolver/resolver.c:367-435 | A base chain that ends never repeats a profile. |
| ResolverSpec.ChainUnique | src/resolver/resolver.c:367-435 | There is at most one base chain. |
| ResolverSpec.CycleExcludesMissing | src/resolver/resolver.c:390-431 | A cyclic chain never reaches an unknown profile: the two errors exclude each other. |
| ResolverSpec.SelectedTarget | src/resolver/resolver.c:437-452 | The explicit target, or that of the nearest profile of the chain that has one, or none if none has. |
| ResolverSpec.PlanUnique | src/resolver/resolver.c:498-535 | Names determine the profiles and the target that take part. |
| Resolver.FindOption | src/resolver/resolver.c:89-104 | The first option with the id, or none. |
| Resolver.FindProfile | src/resolver/resolver.c:106-121 | The first profile with the name, or none. |
| Resolver.FindTarget | src/resolver/resolver.c:123-138 | The first target with the name, or none. |
| Resolver.BuildProfileStack | src/resolver/resolver.c:367-435 | Returns the duplicate-free base chain exactly when there is one; reports a cycle exactly when the walk revisits a profile, and a missing profile exactly when one on the way is unknown. |
| Resolver.SelectTargetName | src/resolver/resolver.c:437-452 | The loop finds the selected target. |
| Resolver.ResolvedConfig.FindIndex | src/resolver/resolver.c:157-172 | The first slot with the id, or none. |
| Resolver.ResolvedConfig.SetValue | src/resolver/resolver.c:187-228 | Overwrites value and source of the option's slot and nothing else if the value is admitted, and changes nothing otherwise. |
| Resolver.ResolvedConfig.SeedDefaults | src/resolver/resolver.c:339-365 | Succeeds exactly when every default is admitted; then each option has one slot with its default. |
| Resolver.ResolvedConfig.ApplyNamedValues | src/resolver/resolver.c:230-258 | Fails exactly when one write of the layer names an unknown option or a value it does not admit; otherwise each slot holds the last write so far. |
| Resolver.ResolvedConfig.ApplyBases | src/resolver/resolver.c:507-521 | Base profiles are applied farthest first, without the selected one. |
| Resolver.ResolvedConfig.ApplyRest | src/resolver/resolver.c:536-567 | Then target, selected profile and user values, in this order. |
| Resolver.ResolvedConfig.SortValues | src/resolver/resolver.c:325-337 | Afterwards the list is strictly sorted by id with one entry per option, holding its last write. |
| Resolver.ResolvedConfig.IsActiveOption | src/resolver/resolver.c:260-281 | Whether the last write to an option is truthy. |
| Resolver.ResolvedConfig.ValidateDependencies | src/resolver/resolver.c:283-323 | Ok exactly when every requires and conflicts reference of every active option holds. |
| Resolver.Resolve | src/resolver/resolver.c:454-578 | Succeeds exactly when the names resolve, every write of every applied layer is admitted, even if overridden later, and the dependencies hold; the result is the snapshot of last writes. |
| ResolverLaws.LayerPrecedence | src/resolver/resolver.c:492-567 | Value and source come from the last of default, bases, target, selected profile and user that writes the option. |
| ResolverLaws.NearerBaseWins | src/resolver/resolver.c:507-521 | Among base profiles the nearer one wins. |
| ResolverLayers.StrongestLayerWins | src/resolver/resolver.c:492-567 | The entry of an option holds the last value of the strongest layer that has one (user, selected profile, target, bases from near to far), with its own source or the layer name. |
| ResolverLayers.UntouchedKeepsDefault | src/resolver/resolver.c:339-365 | An option no layer mentions keeps its default, with the source "default". |
| ResolverLaws.RequiresClosure | src/resolver/resolver.c:283-323 | Whatever an active option reaches over any number of requires steps exists and is active. |
| ResolverLaws.NoConflictInClosure | src/resolver/resolver.c:283-323 | No active option conflicts, in either direction, with anything in that closure. |
| ResolverLaws.ResolvedClosure | src/resolver/resolver.c:283-323 | Both promises read off the entries of a successful resolution. |
| ResolverLaws.EnforcedExactly | src/resolver/resolver.c:283-323 | The dependency check holds exactly when, by the listed values, what options that are on require is on and what they conflict with is off; other kinds do not matter. |
| ResolverLaws.ResolvedDependencies | src/resolver/resolver.c:260-323 | In a resolution an option that is not off has what it requires listed as not off and what it conflicts with as off, in terms of the values. |
| ResolverLaws.ResolvedFlags | src/resolver/resolver.c:260-323 | A flag that is true has the flags it requires true and those it conflicts with false. |
| ResolverLaws.TargetFollowsHeader | include/confit/resolver.h:42-50 | Without an explicit target, the header's rule and the code agree exactly if the selected profile has a target or no base has one. |
| ResolverLaws.TargetOfBaseIsInherited | src/resolver/resolver.c:437-452 | A chain where the base's target is used although the selected profile has none. |
| ResolverLaws.SnapshotUnique | src/resolver/resolver.c:325-337 | Options and writes determine the resolved list. |
| ResolverLaws.ResolutionUnique | src/resolver/resolver.c:454-578 | There is at most one resolved configuration. |
| ResolverLaws.OrderIndependence | src/resolver/resolver.c:569-577 | Permuting the options changes neither the status nor the resolved list. |
| Text.SortByKey | src/resolver/resolver.c:325-337 | Sorted by the key in byte order, and a permutation of what was there. |
| Text.SortedListUnique | src/resolver/resolver.c:325-337 | A strictly sorted list is determined by its elements. |
| Text.LessTotal | src/resolver/resolver.c:325-330 | The comparator's byte order is total. |
| Text.LessIsLexicographic | src/resolver/resolver.c:325-330 | Behind a common prefix the smaller text ends or has the smaller character, and only then. |
| Builder.TextBuilder.Reserve | src/cli/main.c:1592-1613 | The capacity grows until the addition and a terminator fit; the text so far is kept. |
| Builder.TextBuilder.Append | src/cli/main.c:1615-1630 | The contents are extended by exactly the text, inside the buffer. |
| Builder.TextBuilder.AppendChar | src/cli/main.c:1632-1639 | The contents are extended by one character. |
| Numerals.NumeralRoundTrip | src/generator/config_header.c:168-240 | Reading a printed number back in either base gives the number, with or without forced width. |
| Numerals.NumeralLength | src/generator/config_header.c:168-240 | No shorter numeral would do unless the width is forced. |
| Numerals.CollectDigits | src/generator/config_header.c:168-190 | For every 64-bit number at most 20 of the 32 slots are used, and reversed they are its decimal numeral. |
| Numerals.AppendUInt64 | src/generator/config_header.c:168-190 | Appends the decimal numeral of every unsigned 64-bit number. |
| Numerals.AppendInt64 | src/generator/config_header.c:192-207 | Appends sign and magnitude for every signed 64-bit number, the minimum included, without overflow. |
| Numerals.AppendHexUInt64 | src/generator/config_header.c:213-240 | Appends the hexadecimal numeral, of minimal length or at least eight digits. |
| Numerals.HexStep | src/generator/config_header.c:221-238 | Each nibble is printed unless it is a leading zero that is not forced. |
| PrintedShapes.DigitsSpelled | src/generator/config_header.c:209-211 | Upper-case hexadecimal digits. |
| Escapes.AppendEscaped | src/resolver/resolver.c:638-677 | Appends the quoted spelling of every string. |
| Escapes.ReadQuotedText | src/resolver/resolver.c:638-677 | A quoted string is read back, with whatever follows left over. |
| Escapes.Spellings | src/resolver/resolver.c:638-677 | The five escapes letter by letter; every other character stands for itself. |
| Escapes.QuotedHasNoBreaks | src/resolver/resolver.c:638-677 | No tab, line feed or carriage return occurs in a quoted string. |
| Escapes.UnescapedQuoted | src/resolver/resolver.c:638-677 | Text that needs no escape is printed as it is between quotes. |
| Escapes.ReadQuotedBack | src/generator/value_serialization.c:206-219 | Any quoting whose spellings are read one by one is read back as a whole. |
| Literals.CLiteralRoundTrip | src/generator/config_header.c:315-361 | Decoding the literal by sections 6.4.4.4 and 6.4.5 of C11 gives the bytes back, even before a digit. |
| Literals.OctalReads | src/generator/config_header.c:294-313 | A three-digit octal escape is read as its byte whatever follows. |
| Literals.CLiteralPrintable | src/generator/config_header.c:315-361 | Only printable characters reach the header. |
| Literals.OrdinaryText | src/generator/config_header.c:315-361 | Text from blank to tilde without quotes and backslashes reaches C and Lua as it is. |
| Literals.PrintableRange | src/generator/config_header.c:346-351 | Printable means from blank to tilde. |
| Literals.AppendStringLiteral | src/generator/config_header.c:315-361 | Appends the literal of the string, an empty one when it is absent. |
| Literals.AppendOctalEscape | src/generator/config_header.c:294-313 | Appends backslash and exactly three digits. |
| Literals.LuaRoundTrip | src/generator/value_serialization.c:206-219 | Decoding the Lua string gives the bytes back. |
| Literals.LuaSpellingReads | src/generator/value_serialization.c:156-186 | Each byte's spelling is read as that byte whatever follows. |
| Literals.PayloadPrintable | src/generator/value_serialization.c:188-204 | Only printable characters reach the text payload. |
| Literals.AppendTextPayload | src/generator/value_serialization.c:188-204 | Appends the escaped bytes. |
| Literals.AppendLuaString | src/generator/value_serialization.c:206-219 | Appends the quoted escaped bytes. |
| Scalars.ReadNumberBack | src/resolver/resolver.c:703-718 | A printed integer followed by a non-digit is read back. |
| Scalars.ReadScalarBack | src/resolver/resolver.c:777-802 | A printed scalar followed by a comma is read back: null, boolean, number or text. |
| LuaRecords.RecordRoundTrip | src/generator/value_serialization.c:492-537 | All four fields of a record are read back. |
| LuaRecords.TextFieldDecodesTwice | src/generator/value_serialization.c:271-303 | The text field of a textual value holds its bytes after a second decoding. |
| LuaRecords.TextFormReadsAs | src/generator/value_serialization.c:271-303 | The text form of a flag or number is read as that value; hex options, and only they, have the prefix and at least eight digits. |
| PrintedShapes.RecordOfFlag | src/generator/value_serialization.c:492-537 | The record of a flag character by character. |
| PrintedShapes.TypeNames | src/generator/value_serialization.c:492-510 | The names of the option types in records. |
| LuaRecords.AppendLuaRecord | src/generator/value_serialization.c:492-537 | The text form, rendered in a buffer of its own, is quoted once more inside the record. |
| LuaRecords.AppendTextValue | src/generator/value_serialization.c:271-303 | Appends the text form, hexadecimal for hex options. |
| LuaRecords.AppendLuaValue | src/generator/value_serialization.c:305-334 | Appends the Lua form of the value. |
| ResolvedText.ToJson | src/resolver/resolver.c:804-868 | The whole JSON text, entry by entry, with a comma after all entries but the last. |
| ResolvedText.AppendValue | src/resolver/resolver.c:777-802 | Appends the text of a value. |
| JsonReader.JsonRoundTrip | src/resolver/resolver.c:804-868 | The JSON text is read back to ids, values up to kind, and sources. |
| JsonReader.JsonDetermines | src/resolver/resolver.c:804-868 | Two configurations have the same JSON text exactly when they agree, position by position, in id, value up to kind, and source with absent and empty identified. |
| PrintedShapes.JsonOfTwoFlags | src/resolver/resolver.c:804-868 | The whole JSON text of two flags character by character, as in tests/golden/resolver/sim-dsh.json. |
| Fnv.Hash | src/resolver/resolver.c:990-1018 | The loop computes the FNV-1a hash of the JSON text. |
| Fnv.StepInjective | src/resolver/resolver.c:1010-1013 | A step loses neither the hash nor the byte. |
| Fnv.FnvInjective | src/resolver/resolver.c:1009-1013 | Absorbing the same text is a one-to-one map of hashes. |
| Fnv.OneByteChangesHash | src/resolver/resolver.c:1009-1013 | Changing a single byte of the text always changes the hash. |
| Fnv.KnownHashes | src/resolver/resolver.c:990-1018 | The published 64-bit FNV-1a values of the empty text and of "a". |
| Decoders.ParseStringSlice | src/cli/main.c:2303-2346 | For every slice: what the quotes enclose, decoded in double quotes, or a copy when it is not quoted. |
| Decoders.DecodeSlice | src/cli/main.c:2318-2345 | The decoding loop stays inside the fixed buffer for every input. |
| Decoders.SliceRoundTrip | src/cli/main.c:2303-2346 | Quoting, then parsing as an override, is the identity. |
| Decoders.BareSlice | src/cli/main.c:2303-2346 | A slice without matching quotes is returned unchanged. |
| Decoders.SingleQuotedSlice | src/cli/main.c:2303-2346 | Single quotes are stripped without decoding anything. |
| Decoders.DoubleQuotedSlice | src/cli/main.c:2303-2346 | Double quotes without a backslash between them are stripped. |
| Decoders.TrailingBackslash | src/cli/main.c:2321-2322 | A backslash right before the closing quote stands for itself. |
| Decoders.ParseQuotedString | src/compat/compat.c:348-395 | For every slice: trimmed, checked for matching quotes, decoded inside the fixed buffer. |
| Decoders.CompatRoundTrip | src/compat/compat.c:348-395 | Quoting, then parsing as a compatibility value, is the identity with any blanks around. |
| Decoders.BareCompat | src/compat/compat.c:348-395 | Only text in matching quotes of either kind is a string. |
| Decoders.PlainCompat | src/compat/compat.c:348-395 | Without backslashes the text between the quotes stands for itself. |
| Decoders.TrimLeft | src/compat/compat.c:276-283 | Skips exactly the leading blanks. |
| Decoders.TrimRight | src/compat/compat.c:285-293 | Drops exactly the trailing blanks. |
| CompatLines.StripComment | src/compat/compat.c:295-325 | The first hash sign outside strings, or the end. |
| CompatLines.FindEquals | src/compat/compat.c:397-427 | The first equals sign outside strings, or none. |
| CompatLines.OutsideQuoted | src/compat/compat.c:295-427 | Neither search stops inside a quoted string. |
| CompatLines.LineRoundTrip | src/compat/compat.c:295-427 | Of a line with key, quoted value and comment, all three are found where they were written and the value decodes back. |
| TomlScan.ScanParse | src/parser/toml_scan.c:391-454 | The in-place scan returns counts or the first error exactly as the line-by-line definition. |
| TomlScan.Scanner.ParseLine | src/parser/toml_scan.c:366-389 | Effect of one line on open brackets and counters, or its error. |
| TomlScan.Scanner.ParseKeyValue | src/parser/toml_scan.c:338-364 | Effect of a key line, or its error. |
| TomlScan.Scanner.ParseValueFragment | src/parser/toml_scan.c:208-296 | Effect of a value, or of more of an open one, on the brackets, or its error. |
| TomlScan.Scanner.TakeBracket | src/parser/toml_scan.c:257-279 | Effect of one bracket, or the error when it closes nothing. |
| TomlScan.ParseTable | src/parser/toml_scan.c:124-206 | The error of a table header, or none. |
| TomlScan.ValidateKey | src/parser/toml_scan.c:68-122 | The error of a key, or none. |
| TomlScan.FindEqualsIndex | src/parser/toml_scan.c:298-336 | The first equals sign outside strings and before any comment. |
| TomlLaws.ScanComposes | src/parser/toml_scan.c:391-454 | After an accepted text that ends a line, the rest is accepted exactly when it is by itself; counts add and errors move down. |
| TomlLaws.LineShift | src/parser/toml_scan.c:366-389 | Where a line stands changes nothing but the line numbers it records. |
| TomlLaws.CrlfInvariance | src/parser/toml_scan.c:418-443 | Replacing each LF by CRLF changes neither acceptance, counts nor the place of an error. |
| TomlLaws.FinalNewlineInvariance | src/parser/toml_scan.c:418-443 | A missing final newline changes nothing. |
| TomlLaws.SplitAppend | src/parser/toml_scan.c:418-436 | Lines of a text that ends a line, followed by the lines of the rest. |
| TomlBalance.FragmentAcceptedIff | src/parser/toml_scan.c:208-296 | A value text is accepted exactly when its strings are sound and neither kind of bracket closes more than is open; what is left open is the difference. |
| TomlBalance.AcceptedIsBalanced | src/parser/toml_scan.c:391-454 | In an accepted document each kind of bracket balances over all value texts, across lines. |
| TomlBalance.CrossedBracketsPass | src/parser/toml_scan.c:257-279 | `[{]}` is accepted: the two kinds are not nested against each other. |
| TomlBalance.ContinuationAcceptedIff | src/parser/toml_scan.c:366-389 | While a bracket is open each line is more of the value, accepted exactly when its strings are sound and its brackets close no more than is open. |
| TomlForms.CommentLineAccepted | src/parser/toml_scan.c:374-380 | Blanks followed by nothing or by a comment count as one line and nothing else. |
| TomlForms.CommentLineAnywhere | src/parser/toml_scan.c:391-454 | Such a line may stand between any complete lines. |
| TomlForms.HeaderLineAccepted | src/parser/toml_scan.c:124-206 | A good header followed by blanks and a comment counts one table. |
| TomlForms.PlainArrayHeader | src/parser/toml_scan.c:124-206 | A doubled header is as good as a single one. |
| TomlForms.QuotedHeader | src/parser/toml_scan.c:124-206 | A quoted name may hold anything, closing brackets included. |
| TomlForms.KeyLineWithTail | src/parser/toml_scan.c:338-389 | A good key, a good value and a comment, with blanks anywhere between, count one key. |
| TomlForms.EscapedStringIsGood | src/parser/toml_scan.c:33-37 | Each of the nine escapes is accepted in double quotes. |
| TomlForms.LiteralStringIsGood | src/parser/toml_scan.c:226-242 | Between single quotes anything is accepted. |
| TomlForms.OtherEscapeRejected | src/parser/toml_scan.c:231-239 | Any other escape is rejected at its column. |
| TomlForms.OpenStringRejected | src/parser/toml_scan.c:284-288 | A string without its closing quote is rejected behind the end of the line. |
| TomlForms.UnmatchedRejected | src/parser/toml_scan.c:261-279 | A closing bracket that nothing opened is rejected at its column. |
| TomlForms.OpenBracketRejected | src/parser/toml_scan.c:443-454 | A bracket open at the end is rejected where it was opened. |
| TomlForms.NoEqualsRejected | src/parser/toml_scan.c:298-364 | Text without an equals sign before its comment is rejected where it starts. |
| TomlForms.NoKeyRejected | src/parser/toml_scan.c:68-85 | An equals sign without a key is rejected at its column. |
| TomlForms.BracketInKeyRejected | src/parser/toml_scan.c:68-122 | A bracket in a bare key is rejected at its column. |
| TomlForms.TextAfterHeaderRejected | src/parser/toml_scan.c:124-206 | Text behind a header is rejected right behind its bracket. |
| TomlLines.QuotedIsGoodKey | src/parser/toml_scan.c:68-122 | Every quoted string is accepted as a key and hides its own equals and hash signs. |
| TomlLines.QuotedIsGoodValue | src/parser/toml_scan.c:208-296 | Every quoted string is accepted as a value that leaves the brackets alone. |
| TomlLines.KeyLineAccepted | src/parser/toml_scan.c:338-389 | A key line of a good key and a good value counts one key and leaves the state. |
| TomlPrinters.ToToml | src/resolver/resolver.c:922-988 | The printed text is the rendering of its lines. |
| TomlPrinters.TomlTextIsAccepted | src/resolver/resolver.c:922-988 | The scanner accepts the text of every configuration of n values with 2n + 3 lines, 2 tables and 2n keys. |
| TomlReader.TomlRoundTrip | src/resolver/resolver.c:922-988 | The two tables are read back to ids, values up to kind, and sources. |
| TomlReader.TomlDetermines | src/resolver/resolver.c:922-988 | Two configurations have the same TOML text exactly when they show the same entries, which is when they have the same JSON text. |
| TomlPrinters.BuildProfileToml | src/cli/main.c:4443-4511 | Succeeds exactly when every value names a known option and is not empty; prints the values sorted by id. |
| TomlPrinters.AppendProfileValue | src/cli/main.c:4417-4441 | Appends the value, hexadecimal for unsigned values of hex options; fails exactly on an empty one. |
| TomlPrinters.ProfileTextIsAccepted | src/cli/main.c:4443-4511 | The scanner accepts every saved profile with 5 + n lines, 2 tables and 2 + n keys, one line and key more for each of base and target. |
| TomlReader.ProfileRoundTrip | src/cli/main.c:4443-4511 | A saved profile is read back to name, base, target and every value, hexadecimal ones as their numbers. |
| TomlReader.HexOnlyForHex | src/cli/main.c:4417-4441 | Exactly the unsigned values of hex options are written with the hexadecimal prefix. |
| InputManifest.FindNextInput | src/generator/reports.c:628-646 | Returns the unused record that precedes all other unused ones. |
| InputManifest.EmitInputs | src/generator/reports.c:726-738 | The selector always finds a record; each is emitted once, by path, ties in caller order. |
| InputManifest.StableOrderUnique | src/generator/reports.c:628-646 | There is exactly one such order. |
| CompatReport.EvaluateCondition | src/compat/compat.c:866-900 | Finds the first configuration that has the option and compares, or says that none has. |
| CompatReport.EvaluationUnique | src/compat/compat.c:807-900 | Projects and condition determine the evaluation. |
| CompatReport.Report.Record | src/compat/compat.c:956-1020 | Storing a result advances exactly the counter of its outcome. |
| CompatReport.CheckAssertion | src/compat/compat.c:937-1021 | Evaluations, outcome and message of one assertion. |
| CompatReport.CheckReport | src/compat/compat.c:902-1026 | The counters add up to the number of assertions, the status is an error exactly when one fails, and the diagnostic belongs to the first failure. |
| CompatReport.CountsAddUp | src/compat/compat.c:902-1026 | Passed, failed and skipped partition the results. |
| CompatReport.FailsIffNotRespected | src/compat/compat.c:902-1026 | A result fails exactly when an option of the assertion is missing or its action is violated. |
| CompatReport.OutcomeByValues | src/compat/compat.c:950-1021 | Skipped exactly when the option asked about first has another value; passed exactly when it has that value and the second option is as demanded. |
| CompatReport.EqualValues | src/compat/compat.c:833-864 | Values are equal by kind and content, texts of all three kinds by their text, floats never. |
| CompatReport.FailureNames | src/compat/compat.c:954-1017 | The diagnostic names the unknown option, or carries the source and message of the assertion. |
| CategoryPath.Analyze | src/core/model.c:144-177 | Accepts exactly the paths within the length limit whose segments are all filled, and counts the segments. |
| CategoryPath.SegmentAt | src/core/model.c:179-214 | The slice of the requested segment, or an argument error exactly when the path is invalid or has fewer. |
| CategoryPath.SegmentsJoin | src/core/model.c:179-214 | Joining the segments by slashes gives the path back. |
| CategoryPath.CleanIffSegments | src/core/model.c:144-177 | No slash at an end or next to another, exactly when no segment is empty. |
| CategoryPath.DepthIsSlashes | src/core/model.c:144-177 | The depth is the number of slashes plus one. |
| CategoryPath.SingleSegment | include/confit/model.h:13 | A path of one segment has one to 63 characters. |

## Left out

- Floating-point values: ordered reals, infinities and NaN in the value check only; printing them needs IEEE reasoning, so the printers and readers take float-free configurations.
- Allocation failures, null arguments, freeing and string ownership: memory is sequences and arrays that never fail.
- Line and column of the diagnostics of graph and resolver: only status and the option they name, where stated.
- Text.SortByKey: the order of entries with equal keys is one that qsort may choose, because the C standard leaves it open; only a profile that lists an option twice can show it.
- Numerals.AppendUInt64: the calls of snprintf with %lld, %llu and %llX in src/cli/main.c are taken to print as the repository's own digit loops do.
- Numerals.AppendHexUInt64: the shifts of the source are divisions by powers of 16 here.
- Fnv.Hash: the exclusive or and the product are written out on numbers modulo 2^64 instead of machine words.
- CMake values and records, macro names and variable fragments: they replace characters and cannot be read back.
- The other JSON texts (graph, report, explain, compatibility report, manifest): same escaping as the resolved JSON; only the emission order of the manifest is modelled.
- The to-text printer of resolved values and the tables of generated headers: concatenations of the modelled pieces.
- The compatibility file parser beyond comment, equals sign and quoted string: sections, scalars and conditions of a file.
- The v1 schema loader and the TOML adapter: a loaded project is the input here.
- Schema v2 (expressions, linker, ledger, snapshots): not part of this model.
- Command-line argument loops, terminal interface, files, directories, migration and completion: input, output and plumbing.
