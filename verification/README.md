# HELICS support code, verified

A Dafny model of the parts of the HELICS repository that carry most of its own logic: the
file system library, the variant and any types and the ZeroMQ helpers it ships, and the
benchmark federates with a protocol or a graph construction of their own.

| file | models |
|---|---|
| `Utf8Codec.dfy`, `Utf16Codec.dfy` | the UTF-8 automaton and the conversions to and from 32-bit and 16-bit strings |
| `PathText.dfy`, `PathView.dfy` | collapsing of separators; paths as root name, root directory, names, trailing separator |
| `PathIterator.dfy`, `PathCompose.dfy` | the element iterator; decomposition and `operator/=` |
| `PathNormal.dfy`, `PathStandard.dfy` | `lexically_normal`; the normal form by rewriting |
| `PathRelative.dfy`, `PathStream.dfy` | `lexically_relative`; stream output and input |
| `DirectoryWalk.dfy` | the recursive directory iterator, over a tree given as a value |
| `VariantVisit.dfy`, `VariantSwap.dfy` | visitation by batches of indices; swap under exceptions |
| `AnyValue.dfy` | ownership of the objects stored in `any` |
| `Multipart.dfy`, `ActivePoller.dfy` | multipart messages; the poller with handlers |
| `WattsStrogatz.dfy`, `TokenRing.dfy` | the links of the Watts-Strogatz benchmark; the two ring benchmarks |

`dafny verify dfyconfig.toml` checks everything. Each module first gives a definition that
does not follow the code (an encoding, a view of a path, a stack of names, a preorder, a map
of values), then the code, as functions or as methods with the loops and fields of the
source, and relates the two for all inputs.

Paths are the POSIX branch of the library. Host names are those that `root_name` recognises
(`PathCompose.RootNameIsIff`). A colon is not special in POSIX, but parts of the code treat
it so: the iterator splits a first name such as "c:x" (a *drive*), and no separator is added
behind a colon. Iteration, decomposition and append are stated with that, for all such
names. `lexically_normal` and `lexically_relative` are stated for *tame* paths, whose names
neither look like drives nor end in a colon.

Where the code does less than its documentation or the standard asks, the model follows the
code and states exactly when the two agree:

- a broken UTF-8 character swallows the byte that broke it, and a lone surrogate the next
  unit (`Utf8Codec.PrefixIsIndependentIff`, `Utf16Codec.PrefixUnitsAreIndependentIff`);
- a name with a colon in second place is split in two, and "//host" and "x" append to
  "//hostx" (`PathIterator.IterationListsElementsIff`, `PathCompose.AppendListsNamesIff`,
  `PathCompose.ElementsRebuildPathIff`);
- `lexically_normal` turns the empty path into ".", and resolves a second ".." behind
  "../x/.." against the first (`PathNormal.NormalIsStandardIff`, `PathNormal.IdempotentIff`);
- `lexically_relative` counts elements where it should resolve them
  (`PathRelative.RelativeLeadsBackIff`);
- `pop` of the recursive iterator leaves the recursion flag as it was, and a directory that
  cannot be opened is never left by `increment` (`DirectoryWalk.PopKeepsFlag`,
  `DirectoryWalk.WalkEndsIff`);
- an unquoted path of one character is read together with the word behind it
  (`PathStream.WordIsReadIff`);
- a multipart message that could not be sent to its end is glued to the next one
  (`Multipart.BrokenMessageIsGlued`);
- swapping two variants can lose a value (`VariantSwap.SwapIsAllOrNothingIff`);
- `wait` inside a handler of the poller can take the events of the outer `wait` away, or free
  the handler itself (`ActivePoller.WaitLeavesIntactIff`).

## Model

| member | source | states |
|---|---|---|
| Utf8Codec.ConsumeUtf8Fragment | ThirdParty/helics/external/filesystem.hpp:1269-1279 | one step of the packed automaton table moves between states exactly as the byte ranges of section 4 of RFC 3629 allow, and collects the payload bits |
| Utf8Codec.StepKeepsCollected | ThirdParty/helics/external/filesystem.hpp:1269-1279 | in every state the bits collected so far bound the code point: a completed character is always a scalar value |
| Utf8Codec.ValidUtf8 | ThirdParty/helics/external/filesystem.hpp:1281-1295 | true if and only if the bytes are the UTF-8 encoding of some sequence of scalar values |
| Utf8Codec.AcceptsIffEncoding | ThirdParty/helics/external/filesystem.hpp:1269-1295 | the automaton accepts exactly the encodings of scalar values |
| Utf8Codec.EncodingIsUnique | ThirdParty/helics/external/filesystem.hpp:1237-1264 | no two sequences of scalar values share an encoding |
| Utf8Codec.AppendUtf8 | ThirdParty/helics/external/filesystem.hpp:1237-1264 | appends the encoding of one code point to any string, of the replacement character for surrogates and values out of range; decoding then reads one code point more, unless the string ended in a cut-off character |
| Utf8Codec.AppendedCharIsRead | ThirdParty/helics/external/filesystem.hpp:1237-1264 | whatever is appended is read as that code point or the replacement character, and then what follows |
| Utf8Codec.FromUtf8To32 | ThirdParty/helics/external/filesystem.hpp:1349-1380 | on any bytes: only scalar values, no more than bytes, and encoding them gives the input back if and only if it was well-formed |
| Utf8Codec.ToUtf8From32 | ThirdParty/helics/external/filesystem.hpp:1417-1425 | on any code points: well-formed UTF-8 that decodes to the input with every non-scalar replaced |
| Utf8Codec.BytesRoundTripIffValid | ThirdParty/helics/external/filesystem.hpp:1349-1380 | decoding then encoding is the identity on exactly the well-formed byte strings |
| Utf8Codec.CodePointsRoundTripIffScalar | ThirdParty/helics/external/filesystem.hpp:1417-1425 | encoding then decoding is the identity on exactly the sequences of scalar values |
| Utf8Codec.DecodeIsProjection | ThirdParty/helics/external/filesystem.hpp:1349-1380 | on every byte string, encoding what was decoded and decoding again changes nothing |
| Utf8Codec.PrefixIsIndependentIff | ThirdParty/helics/external/filesystem.hpp:1349-1380 | what follows a string is decoded on its own, if and only if the string does not end in a cut-off character: the byte that makes the automaton reject is lost with it |
| Utf8Codec.ValidEndsAtStart | ThirdParty/helics/external/filesystem.hpp:1281-1295 | well-formed strings are among them |
| Utf8Codec.DecodeReadsFirst | ThirdParty/helics/external/filesystem.hpp:1349-1380 | any input begins with a character, which is decoded, or with the beginning of one and a byte that cannot follow, which together give U+FFFD, or is cut off as a whole, which gives U+FFFD; stated over encodings, without the automaton |
| Utf8Codec.BrokenIsReplaced | ThirdParty/helics/external/filesystem.hpp:1361-1370 | one U+FFFD for the broken character with the byte that broke it, and decoding goes on behind |
| Utf8Codec.CutOffIsReplaced | ThirdParty/helics/external/filesystem.hpp:1372-1378 | one U+FFFD for a character cut off at the end |
| Utf16Codec.FromUtf8To16 | ThirdParty/helics/external/filesystem.hpp:1309-1347 | on any bytes: well-formed UTF-16 that spells what the 32-bit decoder returns, no longer than the input |
| Utf16Codec.AppendUtf16 | ThirdParty/helics/external/filesystem.hpp:1319-1326 | one code unit or a surrogate pair, so that the units spell one scalar value more |
| Utf16Codec.ToUtf8From16 | ThirdParty/helics/external/filesystem.hpp:1388-1415 | on any units: well-formed UTF-8, read back as the input if and only if every surrogate is paired; the inner advance never runs past the end |
| Utf16Codec.Classify | ThirdParty/helics/external/filesystem.hpp:1217-1235 | the range tests recognise exactly surrogates and pairs, and the arithmetic inverts the splitting into a pair |
| Utf16Codec.FromBytesIsWellFormed | ThirdParty/helics/external/filesystem.hpp:1309-1347 | every byte string, malformed ones included, decodes to well-formed UTF-16 no longer than it |
| Utf16Codec.UnitsRoundTripIffWellFormed | ThirdParty/helics/external/filesystem.hpp:1388-1415 | units survive the way through UTF-8 exactly when they are well-formed |
| Utf16Codec.BytesRoundTripThroughUnits | ThirdParty/helics/external/filesystem.hpp:1309-1347 | bytes survive the way through UTF-16 exactly when they are well-formed |
| Utf16Codec.PrefixUnitsAreIndependentIff | ThirdParty/helics/external/filesystem.hpp:1394-1409 | what follows a 16-bit string is read on its own, if and only if the string does not end in a surrogate left without partner: it takes the next unit along |
| Utf16Codec.UnitsAreRead | ThirdParty/helics/external/filesystem.hpp:1388-1415 | on any units: what is no surrogate as it stands, a high-low pair as its value, and any other surrogate with the unit behind it as U+FFFD |
| PathText.CollapseIsCanonical | ThirdParty/helics/external/filesystem.hpp:1482-1489 | always collapsed, idempotent, and the identity on exactly the collapsed paths; two leading separators stay only in front of a host name |
| PathText.CollapseKeepsNames | ThirdParty/helics/external/filesystem.hpp:1482-1489 | the names between separators stay, and so do separators at both ends and a host in front |
| PathText.PostprocessPath | ThirdParty/helics/external/filesystem.hpp:1446-1490 | the in-place loop computes the collapsed path |
| PathView.ParseRender | ThirdParty/helics/external/filesystem.hpp:2484-2521 | root name, root directory, names and trailing separator can be read back from the text |
| PathView.RenderParse | ThirdParty/helics/external/filesystem.hpp:2484-2521 | every collapsed text is the text of exactly the parts read from it |
| PathView.RenderInjective | ThirdParty/helics/external/filesystem.hpp:2484-2521 | different parts, different texts |
| PathIterator.IterationListsElements | ThirdParty/helics/external/filesystem.hpp:2744-2843 | without a drive in front, incrementing from the beginning lists root name, root directory, names and the empty element of a trailing separator; decrementing from the end lists the reverse |
| PathIterator.IterationSplitsDrive | ThirdParty/helics/external/filesystem.hpp:2744-2775 | in all collapsed paths: a first name with a colon in second place and more behind it is listed as two |
| PathIterator.IterationListsElementsIff | ThirdParty/helics/external/filesystem.hpp:2744-2775 | so the elements are listed if and only if there is no such name |
| PathIterator.DecrementUndoesIncrementIff | ThirdParty/helics/external/filesystem.hpp:2744-2801 | decrement undoes increment wherever iteration can be, if and only if the first name is not split at a colon |
| PathIterator.AllButLastIff | ThirdParty/helics/external/filesystem.hpp:2777-2801 | stopping at the decremented end lists all elements but the last, if and only if the path is not a single name that is split at a colon |
| PathIterator.Iterator.Next | ThirdParty/helics/external/filesystem.hpp:2817-2829 | moves to the next element and caches it; always progresses |
| PathIterator.Iterator.Prev | ThirdParty/helics/external/filesystem.hpp:2777-2843 | the decrement loop reaches the position the last increment came from |
| PathIterator.Iterator.IncrementFrom | ThirdParty/helics/external/filesystem.hpp:2744-2775 | the scanning code computes the position function the lemmas are about |
| PathCompose.RootNameIsIff | ThirdParty/helics/external/filesystem.hpp:2484-2501 | the root name is the host part, if and only if the host starts with a printable character and has no backslash |
| PathCompose.RootDirectoryIs | ThirdParty/helics/external/filesystem.hpp:2503-2515 | the root directory and root path are the head of the text |
| PathCompose.RelativePathIs | ThirdParty/helics/external/filesystem.hpp:2517-2521 | the relative path is the rest, empty exactly without names |
| PathCompose.FilenameIs | ThirdParty/helics/external/filesystem.hpp:2548-2551 | the last name, nothing behind a trailing separator, and of a lone name that looks like a drive the drive |
| PathCompose.AppendIsAppendView | ThirdParty/helics/external/filesystem.hpp:2127-2159 | appending texts is appending parts, with the branches for colons |
| PathCompose.AppendTexts | ThirdParty/helics/external/filesystem.hpp:2127-2159 | the resulting text for all recognised paths: the right-hand side alone if it is absolute or has another root name, except "/" behind a bare root name or nothing; otherwise the left-hand side, a separator exactly behind a name, and the right-hand side, with one separator more behind a drive |
| PathCompose.AppendParts | ThirdParty/helics/external/filesystem.hpp:2127-2159 | root name, root directory and trailing separator of the result, from those of both paths |
| PathCompose.AppendListsNamesIff | ThirdParty/helics/external/filesystem.hpp:2127-2159 | on texts: the names of both are listed behind one another, if and only if nothing is replaced and neither a bare root name nor a drive is in the way |
| PathCompose.HostSwallowsName | ThirdParty/helics/external/filesystem.hpp:2143-2158 | behind every bare root name a name is glued on |
| PathCompose.HostSwallowsX | ThirdParty/helics/external/filesystem.hpp:2143-2158 | "//host" and "x" give "//hostx" |
| PathCompose.DriveIsTornOff | ThirdParty/helics/external/filesystem.hpp:2147-2157 | every name that looks like a drive is torn apart: nothing and "c:x" give "c:/x" |
| PathCompose.ElementsRebuildPathIff | ThirdParty/helics/external/filesystem.hpp:2127-2159 | appending all elements one by one from the empty path rebuilds the path, if and only if no name looks like a drive and it does not end in a colon and a separator |
| PathCompose.ParentPathIs | ThirdParty/helics/external/filesystem.hpp:2523-2546 | the parent path is what all elements but the last build |
| PathCompose.ParentAndFilenameIff | ThirdParty/helics/external/filesystem.hpp:2523-2551 | parent path and file name make up a path with a relative part, if and only if its elements rebuild it |
| PathCompose.PathObject.AppendPath | ThirdParty/helics/external/filesystem.hpp:2127-2159 | the loop that mutates the path computes that append |
| PathCompose.PathObject.RemoveName | ThirdParty/helics/external/filesystem.hpp:2293-2299 | cuts the file name off the text; a path that ends in a name keeps the names in front of it and their separators, and one that does not is left alone |
| PathCompose.ParentPathOf | ThirdParty/helics/external/filesystem.hpp:2523-2546 | the loop over all elements but the last computes the parent path |
| PathNormal.LexicallyNormalIs | ThirdParty/helics/external/filesystem.hpp:2638-2669 | for all tame paths the loop, with its flag and its cutting of text, is a stack of names |
| PathNormal.RunsAgreeIffClean | ThirdParty/helics/external/filesystem.hpp:2645-2663 | that stack is the standard one if and only if no ".." comes at a climbed level whose text ends in a separator |
| PathNormal.TripShowsInLevel | ThirdParty/helics/external/filesystem.hpp:2645-2663 | one such ".." is never made good again: the result ends too high |
| PathNormal.TripsLoseLevels | ThirdParty/helics/external/filesystem.hpp:2645-2663 | exactly what it does: the names come out right, and each such ".." makes the result climb two levels less |
| PathNormal.NormalResolvesSameIff | ThirdParty/helics/external/filesystem.hpp:2638-2669 | the result resolves to the same names if and only if the path climbs cleanly |
| PathNormal.NormalIsStandardIff | ThirdParty/helics/external/filesystem.hpp:2638-2669 | the result is the normal form of the C++17 standard, section 30.10.8.1, if and only if the path is not empty and with one more ".." climbs cleanly |
| PathNormal.EmptyBecomesDot | ThirdParty/helics/external/filesystem.hpp:2664-2668 | the empty path becomes ".", its standard normal form is empty |
| PathStandard.RewritingGivesStandard | ThirdParty/helics/external/filesystem.hpp:2638-2669 | that normal form is what the rewriting steps of section 30.10.8.1 give, in whatever order names are cancelled |
| PathStandard.RewritingEnds | ThirdParty/helics/external/filesystem.hpp:2638-2669 | and the rewriting ends |
| PathNormal.SettledPathIsNormalised | ThirdParty/helics/external/filesystem.hpp:2638-2669 | absolute paths and paths that never climb above their start: the standard normal form ("." for the empty path), idempotent, same meaning, no "." or ".." left except the result "." |
| PathNormal.IdempotentIff | ThirdParty/helics/external/filesystem.hpp:2638-2669 | normalising again changes the result if and only if a count over the elements ends above the start, open; on cleanly climbing paths, if one more ".." would trip |
| PathNormal.ReturnStaysOpen | ThirdParty/helics/external/filesystem.hpp:2647-2663 | for every name x, "../x/.." gives "../" where the standard has ".." |
| PathNormal.ReturnIsLost | ThirdParty/helics/external/filesystem.hpp:2647-2663 | and "../x/../.." gives "." where the standard has "../.." |
| PathNormal.DriveIsNotNormal | ThirdParty/helics/external/filesystem.hpp:2643-2663 | so is every such name when it is normalised |
| PathNormal.LexicallyNormalOf | ThirdParty/helics/external/filesystem.hpp:2638-2669 | the loop over a path object computes that function |
| PathRelative.LexicallyRelativeIs | ThirdParty/helics/external/filesystem.hpp:2671-2704 | nothing for different roots, "." for equal paths, nothing for a base that climbs further than it comes down, otherwise ".." per level and the names behind the common part |
| PathRelative.RelativeLeadsBackIff | ThirdParty/helics/external/filesystem.hpp:2671-2704 | with equal roots, the base with the relative path appended names what the path names, if and only if there is no bare root name and the base lies as far below the place the path climbs to from the common part as depth and climb say |
| PathRelative.NotClimbingLeadsBack | ThirdParty/helics/external/filesystem.hpp:2684-2696 | so it does for every path if the base does not climb behind the common part |
| PathRelative.UpsCountBaseNames | ThirdParty/helics/external/filesystem.hpp:2684-2703 | for a base without dots: ".." for each of its names beyond the longest common part, then the path's names beyond it |
| PathRelative.RelativeOfNormalBase | ThirdParty/helics/external/filesystem.hpp:2671-2704 | on texts, both together for a base without "." and ".." |
| PathRelative.ClimbingBaseLeadsAstray | ThirdParty/helics/external/filesystem.hpp:2684-2696 | for all names, "/y" relative to "/../x" is "y", and appending that to the base gives "/../x/y", which is "/x/y" |
| PathRelative.LexicallyRelativeTo | ThirdParty/helics/external/filesystem.hpp:2671-2704 | the loops over two iterators and a growing path compute that function |
| PathRelative.DepthFrom | ThirdParty/helics/external/filesystem.hpp:2684-2692 | the counting loop computes the depth of the elements left |
| PathStream.PrintedIsReadBack | ThirdParty/helics/external/filesystem.hpp:2936-2986 | reading what was printed, behind any white space, gives the collapsed path and leaves the rest of the input alone |
| PathStream.CollapsedPathRoundTrips | ThirdParty/helics/external/filesystem.hpp:2936-2986 | the path itself comes back if and only if it was collapsed |
| PathStream.WordIsReadIff | ThirdParty/helics/external/filesystem.hpp:2957-2986 | an unquoted word is read as it stands unless it is one character with anything behind it |
| PathStream.SingleTakesNext | ThirdParty/helics/external/filesystem.hpp:2957-2986 | then the character and the next word are read as one path |
| PathStream.QuotedIsRead | ThirdParty/helics/external/filesystem.hpp:2964-2981 | between quotes, any characters with any escapes; without a closing quote up to the end, where a last backslash is dropped |
| PathStream.EveryInputHasPieces | ThirdParty/helics/external/filesystem.hpp:2964-2981 | every input behind a quote is of one of those kinds |
| PathStream.SpacesAre | ThirdParty/helics/external/filesystem.hpp:2957-2986 | the characters that end a word |
| PathStream.WritePath | ThirdParty/helics/external/filesystem.hpp:2936-2953 | the path between quotes with one backslash in front of exactly the quotes and backslashes, so that a path without them is printed as it is, and any reader of this module gets the path back |
| PathStream.ReadPath | ThirdParty/helics/external/filesystem.hpp:2957-2986 | the reader with its loop computes the extraction the lemmas are about |
| DirectoryWalk.IncrementVisitsNext | ThirdParty/helics/external/filesystem.hpp:5135-5154 | a successful increment passes exactly the next visit of the recursive preorder still ahead |
| DirectoryWalk.PreorderVisitsEachOnce | ThirdParty/helics/external/filesystem.hpp:5135-5154 | that preorder visits exactly the addresses of the tree that can be entered, each once, in dictionary order, nesting as depth |
| DirectoryWalk.PreorderVisitsPlaces | ThirdParty/helics/external/filesystem.hpp:5135-5154 | those are exactly the index paths above which every entry is a directory that opens and no symbolic link, unless links are followed |
| DirectoryWalk.LinksAreNotFollowed | ThirdParty/helics/external/filesystem.hpp:5137 | by default nothing below a symbolic link is visited |
| DirectoryWalk.UnblockedIff | ThirdParty/helics/external/filesystem.hpp:5137-5138 | a walk meets an error if and only if some directory it reaches and would enter fails to open, or is denied while such are not skipped |
| DirectoryWalk.DisableSkipsSubtree | ThirdParty/helics/external/filesystem.hpp:5178-5181 | with recursion disabled exactly the inside of the current entry is skipped |
| DirectoryWalk.PopLeavesDirectory | ThirdParty/helics/external/filesystem.hpp:5156-5176 | pop goes on behind the whole directory it was in |
| DirectoryWalk.PopKeepsFlag | ThirdParty/helics/external/filesystem.hpp:5156-5176 | pop does not set the recursion flag again: the inside of the next entry is lost, exactly if the flag was cleared and there is something inside |
| DirectoryWalk.WalkEndsIff | ThirdParty/helics/external/filesystem.hpp:5135-5154 | incrementing comes to the end if and only if no directory it reaches refuses to open; otherwise it comes to the first that does, and stays there |
| DirectoryWalk.WalkAll | ThirdParty/helics/external/filesystem.hpp:5135-5154 | iterating until the end or an error: the preorder, or its visits up to the first directory that refuses to open; an error if and only if one is reached |
| DirectoryWalk.RecursiveDirectoryIterator.Increment | ThirdParty/helics/external/filesystem.hpp:5135-5154 | one visit further, or, exactly if the current directory is to be entered and refuses to open, an error that leaves the stack as it was |
| DirectoryWalk.RecursiveDirectoryIterator.Pop | ThirdParty/helics/external/filesystem.hpp:5156-5176 | the loop that drops exhausted levels; what remains is behind the directory |
| VariantVisit.VisitCallsActiveAlternatives | ThirdParty/helics/external/variant.hpp:1165-1260 | the recursion over batches of 32 indices calls the visitor on exactly the active alternatives, in order, if and only if all indices are in range |
| VariantVisit.DispatchAtFrom | ThirdParty/helics/external/variant.hpp:1274-1328 | the same for a single index |
| VariantSwap.SwapIsAllOrNothingIff | ThirdParty/helics/external/variant.hpp:2087-2128 | whatever throws, both sides are exchanged or both unchanged, if and only if: for one alternative, its move assignment cannot throw; for different ones, one side is valueless or its move constructor cannot throw |
| VariantSwap.SelfSwapKeepsIff | ThirdParty/helics/external/variant.hpp:2087-2105 | a variant swapped with itself keeps its value, whatever throws, on the same condition |
| VariantSwap.QuietSwapExchanges | ThirdParty/helics/external/variant.hpp:2087-2128 | a swap that does not throw exchanges the two states |
| VariantSwap.SwapThrowsIff | ThirdParty/helics/external/variant.hpp:2087-2128 | which throwing moves make swap throw, for one alternative and for different ones |
| VariantSwap.QuietMovesExchange | ThirdParty/helics/external/variant.hpp:2087-2128 | so if no move throws, or none can, the states are exchanged |
| VariantSwap.SwapLosesIff | ThirdParty/helics/external/variant.hpp:2087-2128 | for each pattern of throwing moves: all or nothing, or exactly one value lost, and which |
| VariantSwap.RemainingValueStands | ThirdParty/helics/external/variant.hpp:2087-2128 | where the other value is then |
| VariantSwap.SelfSwapThrowsIff | ThirdParty/helics/external/variant.hpp:2087-2105 | the same for a variant swapped with itself |
| VariantSwap.Variant.GenericConstruct | ThirdParty/helics/external/variant.hpp:1810-1829 | a throwing move leaves the target valueless and the source as it was |
| VariantSwap.Variant.Swap | ThirdParty/helics/external/variant.hpp:2087-2128 | the branches, the temporary and the rollback compute the modelled outcome, for one variant on both sides as well |
| AnyValue.Program.Execute | ThirdParty/helics/external/any.hpp:74-199 | every program of constructions, assignments, swaps, clears and destructions keeps ownership, computes what it would with plain values, and leaves no object once all scopes are left |
| AnyValue.MeantInOrder | ThirdParty/helics/external/any.hpp:74-199 | what it would compute: the operations one after the other on plain values |
| AnyValue.EachObjectHasOneOwner | ThirdParty/helics/external/any.hpp:74-199 | an object is alive if and only if some variable holds it, and then only one |
| AnyValue.LiveIsHeld | ThirdParty/helics/external/any.hpp:74-199 | the objects alive are exactly those held: no leak, nothing dangling |
| AnyValue.Program.Swap | ThirdParty/helics/external/any.hpp:172-199 | the two values are exchanged, whatever their types and storages, and for a variable swapped with itself |
| AnyValue.Program.TableMove | ThirdParty/helics/external/any.hpp:256-294 | a heap object keeps its identity, a stack object is constructed anew and the old one destroyed |
| AnyValue.Program.AssignCopy | ThirdParty/helics/external/any.hpp:120-124 | the value is copied, to itself as well; if copying throws nothing has changed |
| AnyValue.Program.AssignMove | ThirdParty/helics/external/any.hpp:130-134 | the value moves and the source is empty, unless it is the target |
| AnyValue.Program.AssignValue | ThirdParty/helics/external/any.hpp:141-147 | the new value, or no change if its construction throws |
| AnyValue.Program.ConstructMove | ThirdParty/helics/external/any.hpp:91-99 | the source is left empty |
| AnyValue.Program.ConstructCopy | ThirdParty/helics/external/any.hpp:80-87 | an equal value in a new object, or nothing constructed |
| AnyValue.Program.Clear | ThirdParty/helics/external/any.hpp:150-157 | destroys the object held, once |
| Multipart.MessagesArrive | ThirdParty/cppzmq/zmq_addon.hpp:126-164 | the frames of messages sent one behind the other are read back as exactly the messages that have a part, in order |
| Multipart.MessagesRoundTripIff | ThirdParty/cppzmq/zmq_addon.hpp:126-164 | so all messages come back, if and only if none of them is empty |
| Multipart.BrokenMessageIsGlued | ThirdParty/cppzmq/zmq_addon.hpp:147-164 | parts of a message whose sending broke off arrive in front of the next one |
| Multipart.FirstMessageIs | ThirdParty/cppzmq/zmq_addon.hpp:126-143 | on any queue: the parts of the frames in front, up to the first without the more flag; incomplete exactly if there is none |
| Multipart.Message.Send | ThirdParty/cppzmq/zmq_addon.hpp:147-164 | all parts with the more flag on all but the last, or the parts before the refusal, with the refused part gone too |
| Multipart.Message.Recv | ThirdParty/cppzmq/zmq_addon.hpp:126-143 | parts up to the first frame without the more flag |
| Multipart.Message.Append | ThirdParty/cppzmq/zmq_addon.hpp:175-179 | the other parts behind, in order, the other left empty |
| Multipart.Message.Prepend | ThirdParty/cppzmq/zmq_addon.hpp:168-172 | the other parts in front, in order, the other left empty |
| Multipart.Transmit | ThirdParty/cppzmq/zmq_addon.hpp:126-164 | sending and receiving through a socket with room gives the same messages |
| ActivePoller.RunsAreSafe | ThirdParty/cppzmq/zmq_addon.hpp:387-438 | in every run in which handlers wait only where they may, nested to any depth, every state is consistent, no handler is called after it was freed or freed while it runs, and every loop finds the events it was given, whatever the handlers add, remove or throw |
| ActivePoller.ActIsSafe | ThirdParty/cppzmq/zmq_addon.hpp:387-438 | the same for each call, failing ones and waits inside handlers included |
| ActivePoller.FailedAddChangesNothing | ThirdParty/cppzmq/zmq_addon.hpp:387-406 | add throws exactly if the poller refuses or the socket is known, and then nothing has changed |
| ActivePoller.WaitCallsHandlers | ThirdParty/cppzmq/zmq_addon.hpp:420-438 | a wait calls exactly the handlers of the ready sockets that have one, each once, in the order of the report, up to the first that throws, and throws if and only if one does; handlers may wait in turn |
| ActivePoller.QuietIsLegal | ThirdParty/cppzmq/zmq_addon.hpp:431-437 | every wait whose handlers do not wait is covered |
| ActivePoller.ActsInOrder | ThirdParty/cppzmq/zmq_addon.hpp:431-437 | what a handler does is done call by call |
| ActivePoller.AddRegisters | ThirdParty/cppzmq/zmq_addon.hpp:387-406 | the socket is entered with its events and its handler, exactly if the base poller takes it and it is new; no other socket changes |
| ActivePoller.RemoveUnregisters | ThirdParty/cppzmq/zmq_addon.hpp:408-413 | exactly a known socket is taken out, and no other |
| ActivePoller.ModifyChangesEvents | ThirdParty/cppzmq/zmq_addon.hpp:415-418 | exactly the events of a known socket change; its handler, the cache and the buffer stay |
| ActivePoller.AddKeepsOthers | ThirdParty/cppzmq/zmq_addon.hpp:387-406 | handlers of other sockets, the cache and the buffer stay, and the cache is marked exactly if the sockets changed |
| ActivePoller.RemoveKeepsOthers | ThirdParty/cppzmq/zmq_addon.hpp:408-413 | so they do when a socket is removed |
| ActivePoller.ReportKeepsTable | ThirdParty/cppzmq/zmq_addon.hpp:420-431 | waiting itself changes no socket and no handler |
| ActivePoller.AddKeepsValid | ThirdParty/cppzmq/zmq_addon.hpp:387-406 | pointers given to the poller stay pointers to registered handlers |
| ActivePoller.RemoveKeepsValid | ThirdParty/cppzmq/zmq_addon.hpp:408-413 | so they do when a socket is removed, in a handler as well |
| ActivePoller.RebuildKeepsValid | ThirdParty/cppzmq/zmq_addon.hpp:422-430 | after rebuilding the cache owns every registered handler |
| ActivePoller.DispatchIsSafe | ThirdParty/cppzmq/zmq_addon.hpp:431-437 | the cache keeps handlers alive during the loop that calls them |
| ActivePoller.WaitLeavesIntactIff | ThirdParty/cppzmq/zmq_addon.hpp:420-438 | whatever is reported, a wait inside handlers leaves all loops around it intact and their handlers alive, if and only if every loop is at its last event and, when sockets were added or removed, they fit in the memory of the event buffer and no running handler has lost its socket |
| ActivePoller.RemoveSelfThenWaitFreesHandler | ThirdParty/cppzmq/zmq_addon.hpp:408-430 | a handler that removes its own socket and waits is freed while it runs |
| ActivePoller.AddThenWaitMovesBuffer | ThirdParty/cppzmq/zmq_addon.hpp:422-423 | a handler that adds a socket and waits moves a full buffer under the outer loop |
| ActivePoller.ReportReplacesEvent | ThirdParty/cppzmq/zmq_addon.hpp:431-437 | a wait that reports another socket where an event is left takes that event away |
| ActivePoller.Poller.AddSocket | ThirdParty/cppzmq/zmq_addon.hpp:387-406 | the code with its rollback computes the modelled outcome |
| ActivePoller.Poller.WaitFor | ThirdParty/cppzmq/zmq_addon.hpp:420-438 | rebuild, wait and dispatch compute the modelled outcome; it throws if and only if the base poller or a handler of a ready socket does |
| WattsStrogatz.SetUpLinks | benchmarks/helics/WattsStrogatzFederate.hpp:79-161 | refused unless the degree is between one and the number of other federates; then exactly that many different links, none to itself, whatever is drawn |
| WattsStrogatz.LinksCanComeOutIff | benchmarks/helics/WattsStrogatzFederate.hpp:126-161 | which links can come out: any different others of which none was still a later link of the lattice, and no others |
| WattsStrogatz.RewiredLinksAreGood | benchmarks/helics/WattsStrogatzFederate.hpp:126-161 | for all draws: different nodes, in range, not its own |
| WattsStrogatz.StartListsOthers | benchmarks/helics/WattsStrogatzFederate.hpp:126-138 | lattice and available links together have every other node once |
| WattsStrogatz.StartIsRing | benchmarks/helics/WattsStrogatzFederate.hpp:126-138 | the lattice is the next nodes to the right on the ring, the available links are the others, from the left |
| WattsStrogatz.RewireListsOthers | benchmarks/helics/WattsStrogatzFederate.hpp:140-161 | and so they have after any number of exchanges |
| WattsStrogatz.RewireFollowsDraws | benchmarks/helics/WattsStrogatzFederate.hpp:140-161 | what each draw does: a kept link stays, an exchanged one becomes the node drawn, or the link last exchanged for it |
| WattsStrogatz.RingLattice | benchmarks/helics/WattsStrogatzFederate.hpp:126-129 | the loop builds the lattice |
| WattsStrogatz.AvailableLinks | benchmarks/helics/WattsStrogatzFederate.hpp:131-138 | the loop builds the other links |
| WattsStrogatz.RewireLinks | benchmarks/helics/WattsStrogatzFederate.hpp:140-161 | the rewiring loop computes the exchanges |
| TokenRing.EveryRunIsSafe | benchmarks/helics/RingTransmitFederate.hpp:48-71 | in every run, however the federates interleave and stop: no token before the start, exactly one after it, passed on in ring order unchanged, loop counts falling along the ring and never more than one apart |
| TokenRing.RunIsAt | benchmarks/helics/RingTransmitFederate.hpp:54-71 | every reachable state is given by full rounds and the position of the token |
| TokenRing.FairRunsCountRounds | benchmarks/helics/RingTransmitFederate.hpp:54-71 | granted time in turn, every federate counts exactly one loop a round |
| TokenRing.StoppedHolderEndsRing | benchmarks/helics/RingTransmitFederate.hpp:61-70 | once the federate with the token has stopped nothing is passed on |
| TokenRing.WakePassesIff | benchmarks/helics/RingTransmitFederate.hpp:61-70 | a federate that is granted time passes the token on, exactly if it has it and has not stopped |
| TokenRing.StoppedIff | benchmarks/helics/RingTransmitFederate.hpp:61-70 | in every run exactly the federates that reached their final time have stopped |
| TokenRing.AskedIs | benchmarks/helics/RingTransmitFederate.hpp:61-70 | time is asked for until a grant reaches the final time |
| TokenRing.RingsAgree | benchmarks/helics/RingTransmitMessageFederate.hpp:44-70 | the ring of messages does in every run what the ring of publications does, with messages from the right sender to the right receiver |
| TokenRing.Succ | benchmarks/helics/RingTransmitMessageFederate.hpp:44-49 | the destination is the federate whose subscription looks back to the sender |
| TokenRing.Federate.MainLoop | benchmarks/helics/RingTransmitFederate.hpp:54-71 | a federate sends on every text it gets up to its final time, unchanged and in order, one loop counted each |
| TokenRing.FederateFollowsRing | benchmarks/helics/RingTransmitFederate.hpp:54-71 | in every run that is the token, as often as the ring logs it and as the loop count says |

## Left out

- File operations that call the system (`canonical`, `copy`, `remove`, `space`, times, permissions): the file system would be all assumption.
- The build option that raises an error on malformed text instead of writing the replacement character.
- The Windows branches of the file system library, and the constructors that take a locale.
- `stem`, `extension`, `replace_filename`, `replace_extension`, `concat`, comparison and hashing of paths: short functions on top of the modelled ones.
- PathNormal.LexicallyNormalIs: for tame paths, because names torn apart at a colon can turn into ".." on the way.
- PathRelative.LexicallyRelativeIs: for tame paths, for the same reason.
- PathCompose.RootDirectoryIs: for the host names that `root_name` recognises, because others are no root name at all (`PathCompose.RootNameIsIff`).
- PathCompose.RelativePathIs: likewise.
- PathCompose.FilenameIs: likewise.
- PathCompose.AppendIsAppendView: likewise.
- PathCompose.HostSwallowsName: for names that are not split at a colon; for those that are see `PathCompose.AppendIsAppendView`.
- PathNormal.DriveIsNotNormal: for names that are split once; it only shows that the condition of `PathNormal.LexicallyNormalIs` is needed.
- Appending a path to itself in place: the argument of `operator/=` is a value here.
- PathStream.ReadPath: input without any character counts as nothing read, because the source then goes on with a character that was never set.
- Directory entries that change while they are iterated, errors while reading a listing, and symbolic link cycles: the tree is finite and fixed, and opening a directory either works or fails for good.
- The other constructors and assignments of `variant`, its comparison operators and its type computations.
- Multipart.Message.Append: for two different messages, because the source loops without end on one.
- Multipart.Message.Prepend: likewise.
- Typed access to message parts, encoding and decoding of multipart messages, and the socket itself beyond a queue with a capacity.
- The poller of the ZeroMQ library below `active_poller_t`: which sockets are ready and which calls it refuses are inputs.
- `any_cast` and the choice between heap and stack storage: the choice is part of a type here.
- Random number generators of the benchmarks: draws are inputs; only their range is kept.
- Time management of the co-simulation: any interleaving of time grants is allowed, so the ring results do not depend on it.
- Overflow of loop counters and of sizes: counts are unbounded here.
- The other benchmark federates, the C++98 and Java interfaces and the examples: thin wrappers around a library that is not part of this model.
