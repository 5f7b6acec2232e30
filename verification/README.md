# EclipseOS in Dafny

A model of the parts of EclipseOS whose correctness rests on an argument rather
than on a case table, and proofs of what those parts promise. `dafny verify
dfyconfig.toml` checks it all.

**The preview encoders** (`Bytes`, `Lzw`, `Crc32`, `Png`, `Palette`, `Gif`). The
shader preview writes PNG and GIF files with nothing underneath. Each encoder is
modelled loop by loop and proved against a reader written from the format's
standard: what is written is accepted and read back as what was put in. For LZW
that means the encoder's and the decoder's tables, one entry apart, and their
code widths never fall out of step. The CRC loop is tied to polynomial division,
and from that to the bursts it detects.

**The config editor** (`Kdl`, `Splice`, `Prune`, `Remove`, `SetTree`, `SetText`,
`Effect`, `SetValue`, `BlockTree`, `BlockText`, `BlockRest`, `BlockLine`,
`BlockInsert`, `BlockNames`, `NamedBlocks`, `UpsertBlock`, `UpsertAgain`,
`SharedLine`, `MoveBlock`, `ListItem`, `LineEnds`, `LineText`). The editor
replaces bytes of a file it never prints anew. A file is a tree with all of its
bytes in it, and `DocText` is their text. For every operation there are three
statements. The method's contract gives the outcome on any text the parser
reads: the refusal, or the very edits made in place. A condition on the tree,
put together from its gaps, says exactly when those bytes are the text of the
edited tree: for removals that they are safe (`Prune.Safe`,
`BlockText.EarlierSafe`), for an insertion that its place is clear
(`SetText.Reached`, `BlockInsert.ClearAfter`, `UpsertBlock.UpsertClear`,
`MoveBlock.PlaceClear`). In a file whose comments all end at a `\n`
(`Kdl.Lined`) every one of these conditions holds. And lemmas say what the edit
does to the meaning of the file: which nodes a path leads to, which blocks there
are and in what order, and that every path apart from those leads to the very
same nodes. `LineText` says with the text alone which bytes go with a node and
where, and how indented, new ones are written. A second identical
`remove_value`, `set_value`, `replace_list_item` or `upsert_block` changes
nothing whenever the parser reads what the first wrote for what it was written
from, but for one case of the last, which has its exact condition. The parser is
a parameter. All that is assumed of it is said of the texts at hand
(`Remove.Reads`): the tree it returns is one of the text it was given and is put
together as KDL puts trees together.

**String algorithms** (`EditDistance`, `Glob`). The two-row edit distance is the
least number of edits and a metric; the greedy glob matcher finds a match
whenever there is one.

**Approvals** (`WidgetHash`, `Approvals`). What a widget runs is hashed from
bytes that can be decoded, so an approval covers one definition, or two inputs
with one hash have been found. The writer's queue, temporary file and rename are
a step system with failures and crashes at every point; whatever is interleaved,
the file is never torn and reads as the first approvals with the saved jobs made
in order.

**The config load** (`Binds`, `WidgetBlocks`). The bind table has one bind per
chord, from the first of five layers that has it, and never loses the agent's
chords. A widget block is refused or becomes the widget its children describe.
Widget names claimed, defined and placed across any sequence of files end with
no placed id without a block.

**The browser extension and the benchmarks** (`KeyColors`, `Reconnect`,
`Percentile`). The key colours are told apart after few steps, by a counting and
a growth argument, and on tints near white they are shown not to be. The
reconnecting port is a step system whose handlers and waiting reports interleave
freely; its variables are held against an account told from the events alone. Percentiles are nearest ranks, and a slower run is never judged better.

Code that changes variables step by step is a method or a class with the same
loops and fields, proved against a function of its inputs; code made of
expressions is functions.

## Where the code and its documentation differ

- KDL ends a line, and with it a `//` comment, at CR, NEL, FF, LS and PS as well
  as at `\n`; the editor looks for `\n` only. Behind a comment that ends
  otherwise it takes what follows for more of the comment. Removing `a` from `a
  // x` and `b`, parted by a next-line character, removes `b` too
  (`LineEnds.CommentTakesNext`); with both called `a` the splice is out of range
  and panics (`LineEnds.CommentPanics`); and a new key can be written behind the
  closing brace of its block (`LineEnds.CommentHidesBrace`). The conditions
  above are exactly the files where this does not happen.
- `upsert_block` promises that writing the block that is already there is
  byte-identical. It is not when the call before dropped an earlier copy from
  the line of the last one. In `bar {`, a line of four blanks and `widget "a"
  {}; widget "a" {}`, and `}`, writing `a` leaves the last copy behind five
  blanks but rendered for four, and the second identical call renders it for
  five (`SharedLine.CopyShifts`). `UpsertAgain.UpsertTwice` has the exact
  condition; a new block, a block that is the only one of its name and a block
  on a line of its own always meet it.
- `move_block` promises the block the place asked for among the distinct names.
  A block without a name counts as one of the places it looks for, but is not a
  name. Behind such a block the one moved lands one place too early.
  `MoveBlock.MoveLands` says exactly when; `MoveBlock.MisplacedByUntitled` is
  the file `bar { widget; widget "a"; widget "b" }`, in which `a` moved to place
  1 stays before `b`.
- A block that is the only one of its kind by name but is written twice cannot
  be moved to its own place 0: it is reported as not found once both copies are
  out of the text. `MoveBlock.MoveLands` covers it as the move that fails.
- `keyColors` promises that the keys and the tint are always two units apart.
  For every dark tint with red at most 245, or green or blue at most 247, they
  are, whatever the lifts (`KeyColors.KeyColors`). For no tint with every
  channel at least 252 are they, whatever the lifts
  (`KeyColors.WhiteHasNoRoom`). Between the two it depends on the tint and the
  lifts: the tint (246, 253, 254) has both outcomes (`KeyColors.FlatComesApart`,
  `KeyColors.LiftedDoesNot`).
- `palette` is to give each box the mean of its colours. The sum behind it has
  32 bits and wraps in a release build (a debug build stops there). Every entry
  lies in its box up to 16 843 009 samples in all; from one more on a white
  sample has a first entry that is not white (`Palette.SampleSizeDecides`,
  `Palette.WhiteSample`). Which boxes are hit is told by their wrapped sums
  (`Palette.EntryInside`), for a box of one colour by whether a sum overflows
  (`Palette.PlainEntry`).

## Model

| member | source | states |
|---|---|---|
| Lzw.Lzw | abyss/bench/src/bin/shader-preview.rs:666-708 | for every non-empty list of indices, a decoder written from Appendix F of GIF89a, told only the minimum code size 8 and taking bits past the end as zero, returns exactly that list; the bytes are the code stream and fewer than eight zero bits |
| Lzw.BitWriter.Emit | abyss/bench/src/bin/shader-preview.rs:669-677 | a code is added to the stream least significant bit first and nothing already written or pending is disturbed |
| Lzw.BitWriter.TakeByte | abyss/bench/src/bin/shader-preview.rs:672-676 | moving a full byte out of the accumulator changes no bit of the stream |
| Lzw.BitWriter.Flush | abyss/bench/src/bin/shader-preview.rs:704-706 | the last partial byte is padded with zero bits only, fewer than eight |
| Lzw.FitsU32 | abyss/bench/src/bin/shader-preview.rs:669-671 | the accumulator never needs more than 20 of its 32 bits |
| Lzw.ResetKeepsLockstep | abyss/bench/src/bin/shader-preview.rs:694-700 | after a Clear both sides have an empty table and nine-bit codes |
| Lzw.StepInLockstep | abyss/bench/src/bin/shader-preview.rs:687-693 | one data code adds to the decoder's table just the string the encoder added one step before, also when the code is the one not yet defined, and both grow their codes at the same point |
| Lzw.InsertKeepsLockstep | abyss/bench/src/bin/shader-preview.rs:688-693 | a miss below 4096 entries keeps encoder and decoder one entry apart and equally wide |
| Lzw.HitKeepsLockstep | abyss/bench/src/bin/shader-preview.rs:683-686 | extending the pending string by a known pair keeps them in step and the longer code stands for the longer string |
| Lzw.FullIsWidest | abyss/bench/src/bin/shader-preview.rs:690-699 | a full table means twelve-bit codes, so the Clear goes out at the width it is read at |
| Lzw.RunsToInput | abyss/bench/src/bin/shader-preview.rs:682-703 | what is still to be written makes the decoder put out the pending string and the rest of the input, from any reachable state |
| Lzw.ReadsLast | abyss/bench/src/bin/shader-preview.rs:702-706 | the end code written at the old width is read right by a decoder already one bit wider, since only zeros follow |
| Lzw.DecodesPacked | abyss/bench/src/bin/shader-preview.rs:666-708 | reading the packed bits gives the very codes that were packed, whatever their widths |
| Lzw.StreamIsThrifty | abyss/bench/src/bin/shader-preview.rs:682-703 | the stream is as short as the coder means it: read as the standard reads it, each code stands for the longest string in the table at the front of what is left, the end comes when nothing is left, and a Clear exactly when all 4096 codes are taken and more is to come |
| Crc32.ComputeCrc | abyss/bench/src/bin/shader-preview.rs:555-568 | the two nested loops compute the register function the other lemmas are about |
| Crc32.FeedIsFeedBits | abyss/bench/src/bin/shader-preview.rs:557-566 | adding a byte at once and shifting eight times is feeding its bits one at a time, least significant first |
| Crc32.PolyIsGenerator | abyss/bench/src/bin/shader-preview.rs:560-564 | the reflected constant is the generator polynomial of section 3.4 of RFC 2083 |
| Crc32.FeedBitsDivides | abyss/bench/src/bin/shader-preview.rs:557-566 | the register always holds the remainder so far of a long division over GF(2) |
| Crc32.CrcIsRemainder | abyss/bench/src/bin/shader-preview.rs:555-568 | the checksum is the complement of the remainder of the message with its first 32 bits complemented and 32 zeros behind it |
| Crc32.RemCharacterised | abyss/bench/src/bin/shader-preview.rs:555-568 | that remainder is the one and only polynomial of degree below 32 congruent to the message modulo the generator |
| Crc32.ShiftInjective | abyss/bench/src/bin/shader-preview.rs:560-564 | one bit step never maps two registers to one |
| Crc32.FeedBitsLinear | abyss/bench/src/bin/shader-preview.rs:557-566 | the register is linear in the start value and the message together |
| Crc32.BurstDetected | abyss/bench/src/bin/shader-preview.rs:555-568 | two messages of one length that differ only within a window of 32 bits never share a checksum |
| Crc32.ByteErrorDetected | abyss/bench/src/bin/shader-preview.rs:555-568 | in particular when exactly one byte differs |
| Png.Png | abyss/bench/src/bin/shader-preview.rs:571-609 | for every image with positive sides a reader for the chunk layout (section 3.2 of RFC 2083), the zlib wrapper (section 2.2 of RFC 1950) and stored blocks (section 3.2.4 of RFC 1951) accepts the file and finds the size and every pixel's three channels |
| Png.RawRows | abyss/bench/src/bin/shader-preview.rs:572-578 | the raw data is every row in order, each behind filter type 0, without alpha |
| Png.UnfilterRows | abyss/bench/src/bin/shader-preview.rs:572-578 | a reader that undoes filter type 0 gets each row back |
| Png.ComputeAdler | abyss/bench/src/bin/shader-preview.rs:587-592 | the running sums, reduced at every byte and never past 32 bits, are the unreduced sums modulo 65521 |
| Png.Zlib | abyss/bench/src/bin/shader-preview.rs:579-592 | header, stored blocks and checksum, each where the standard has them, in six bytes more than the data and five more for each 65535 of it |
| Png.InflateStored | abyss/bench/src/bin/shader-preview.rs:580-586 | the blocks read back as the data up to the one final block, and leave exactly what follows it |
| Png.UnzlibZlib | abyss/bench/src/bin/shader-preview.rs:579-592 | the wrapper reads back, its checksum agreeing |
| Png.ChunkRoundTrip | abyss/bench/src/bin/shader-preview.rs:594-600 | a chunk reads back with its length, type and checksum accepted and leaves what follows it |
| Palette.Pick | abyss/bench/src/bin/shader-preview.rs:620-642 | the box split is the last of those with the widest channel range among the boxes of two colours or more, and one is found whenever there is such a box |
| Palette.Sampled | abyss/bench/src/bin/shader-preview.rs:615-617 | every fifth pixel from the first, its red, green and blue, and none left over |
| Palette.SamplesAppend | abyss/bench/src/bin/shader-preview.rs:614-618 | every frame gives its own, in order |
| Palette.RangeIs | abyss/bench/src/bin/shader-preview.rs:626-634 | the range of a channel is the greatest difference between two colours of the box |
| Palette.Widest | abyss/bench/src/bin/shader-preview.rs:626-635 | the widest channel, the last of equals |
| Palette.SwapRemove | abyss/bench/src/bin/shader-preview.rs:643 | the last box takes the place of the one taken out and the others keep theirs |
| Palette.MedianCut | abyss/bench/src/bin/shader-preview.rs:619-648 | the boxes are what a run of median splits from the whole sample comes to; together they hold the sample exactly, as often as each colour occurs; there are at most 256, and fewer only if each is of one colour |
| Palette.SplitKeeps | abyss/bench/src/bin/shader-preview.rs:643-647 | taking a box out by `swap_remove` and pushing its two halves loses and invents no colour |
| Palette.NothingToSplit | abyss/bench/src/bin/shader-preview.rs:638-642 | when the loop gives up early every box is of one colour |
| Palette.MeanIs | abyss/bench/src/bin/shader-preview.rs:651-659 | an entry's channel is the 32-bit sum over the box divided by the number of its colours, rounded down |
| Palette.SumAppend | abyss/bench/src/bin/shader-preview.rs:653-658 | the sum takes in every colour of the box once |
| Palette.EntryInside | abyss/bench/src/bin/shader-preview.rs:649-661 | the entry of any box lies within it, in each channel, exactly when the wrapped sum is that of a mean within it; so it always does when no sum overflows |
| Palette.PlainEntry | abyss/bench/src/bin/shader-preview.rs:649-661 | of a box of one colour the entry is that colour exactly when no 32-bit sum overflows, and lies outside the box otherwise |
| Palette.SizeDecides | abyss/bench/src/bin/shader-preview.rs:649-661 | every box of a size holds its entry exactly up to 16 843 009 samples |
| Palette.SampleSizeDecides | abyss/bench/src/bin/shader-preview.rs:612-664 | every palette of a sample of a size has its entries in the boxes they were made of exactly up to 16 843 009 pixels |
| Palette.PlainSample | abyss/bench/src/bin/shader-preview.rs:618-664 | a sample of one colour stays in one box, and the palette begins with that colour exactly when no sum overflows |
| Palette.WhiteSample | abyss/bench/src/bin/shader-preview.rs:612-664 | the palette of frames that give n white pixels begins with white exactly up to 16 843 009 of them |
| Palette.WhiteFrame | abyss/bench/src/bin/shader-preview.rs:612-618 | there are such frames, for every n |
| Palette.Palette | abyss/bench/src/bin/shader-preview.rs:612-664 | exactly 256 entries: the mean of each box of such a cut, black behind them |
| Palette.FewAreKept | abyss/bench/src/bin/shader-preview.rs:612-664 | a sample of at most 256 pixels loses no colour |
| Palette.KeyCoarse | abyss/bench/src/bin/shader-preview.rs:739-745 | colours that share a 5-5-5 key share the colour searched for, so a remembered answer serves both |
| Palette.Coarse | abyss/bench/src/bin/shader-preview.rs:741-745 | each channel at the middle of its eighth |
| Palette.Search | abyss/bench/src/bin/shader-preview.rs:746-751 | the entry found is the first at the least distance, the squares of all three channels' differences added |
| Palette.NearestUnique | abyss/bench/src/bin/shader-preview.rs:746-751 | there is only one such entry |
| Palette.Lut.Index | abyss/bench/src/bin/shader-preview.rs:739-753 | a lookup, remembered or not, gives what a direct search gives, and leaves the table right for every later pixel and frame |
| Gif.Gif | abyss/bench/src/bin/shader-preview.rs:710-765 | frames of one size read back in order from a file by the format's own constants: a show for ever, each frame at the upper left with its delay, the last held, none see-through, for each pixel the first entry of the table nearest to it, and the table is that of the median cut |
| Gif.SubBlocksRead | abyss/bench/src/bin/shader-preview.rs:757-761 | the sub-blocks of at most 255 bytes read back as the data and stop at the empty one |
| Gif.FramesRead | abyss/bench/src/bin/shader-preview.rs:725-762 | any number of frames reads back, each with its own delay |
| Gif.FileRead | abyss/bench/src/bin/shader-preview.rs:710-765 | header, table, looping extension, frames and trailer read back |
| Gif.Indices | abyss/bench/src/bin/shader-preview.rs:735-755 | one index a pixel, each the nearest entry |
| EditDistance.EditDistance | abyss/crates/ec-abyss-config/src/errors.rs:212-226 | the two swapped rows compute the recursive Levenshtein distance |
| EditDistance.LevIsFewestEdits | abyss/crates/ec-abyss-config/src/errors.rs:212-226 | that distance is the least number of insertions, deletions and replacements of one character that leads from one string to the other |
| EditDistance.LevZero | abyss/crates/ec-abyss-config/src/errors.rs:212-226 | it is zero exactly for equal strings |
| EditDistance.LevSymmetric | abyss/crates/ec-abyss-config/src/errors.rs:212-226 | it is symmetric |
| EditDistance.LevTriangle | abyss/crates/ec-abyss-config/src/errors.rs:212-226 | it meets the triangle inequality |
| EditDistance.PickIsFirstLeast | abyss/crates/ec-abyss-config/src/errors.rs:202-210 | of the candidates within the budget the first of the least is taken, and none only when all are beyond it |
| EditDistance.Budget | abyss/crates/ec-abyss-config/src/errors.rs:203 | a third of the word's length in bytes, rounded down, and one at least |
| EditDistance.NearestIsLeast | abyss/crates/ec-abyss-config/src/errors.rs:202-210 | a suggestion is a candidate within the budget that no candidate is nearer than; there is none exactly when every candidate is too far |
| Glob.GlobMatch | abyss/crates/ec-abyss-config/src/parse.rs:447-473 | true exactly when some choice of one string for each star makes the pattern the text |
| Glob.MatchPieces | abyss/crates/ec-abyss-config/src/parse.rs:458-472 | the loop over the pieces decides what is left to match |
| Glob.MatchIsMatches | abyss/crates/ec-abyss-config/src/parse.rs:447-473 | the backtracking definition and the substitution of strings for stars agree |
| Glob.LeftmostDecides | abyss/crates/ec-abyss-config/src/parse.rs:467-470 | taking the leftmost occurrence of a piece finds a match if there is one and only then |
| Glob.MiddlePiece | abyss/crates/ec-abyss-config/src/parse.rs:460-470 | the same for a piece between two stars, in terms of the pieces left |
| Glob.LastPiece | abyss/crates/ec-abyss-config/src/parse.rs:464-466 | the last piece, after a star, decides by the text's end |
| Glob.Split | abyss/crates/ec-abyss-config/src/parse.rs:448-459 | the pieces hold no star and make up the pattern |
| Kdl.RemovalInGaps | abyss/crates/ec-abyss-config/src/edit.rs:678-700 | a removal stays within the two gaps around the node, and is told by them alone, exactly when it is not the case that the node starts its line and a comment behind it is ended by something other than `\n`; in that case it takes what follows too |
| Kdl.HeadInText | abyss/crates/ec-abyss-config/src/edit.rs:687-700 | whether only blanks precede a node on its line, read off the gap before it |
| Kdl.TailInText | abyss/crates/ec-abyss-config/src/edit.rs:678-683 | the editor takes the rest of a node's line for blank or a comment exactly when the gap behind the node says so or is exposed, in which case it reads on past the gap |
| Kdl.NodeStopIs | abyss/crates/ec-abyss-config/src/edit.rs:664-668 | blanks taken into a node's span do not move its end |
| LineText.TrivialIsQuiet | abyss/crates/ec-abyss-config/src/edit.rs:676-683 | the rest of a line is trivial exactly when it is white space, with one `;` in it perhaps, up to its end or a `//` |
| LineText.IndentThere | abyss/crates/ec-abyss-config/src/edit.rs:392-399 | every line has the indentation the following rows speak of: the blanks and tabs it starts with |
| LineText.WholeLinesGo | abyss/crates/ec-abyss-config/src/edit.rs:685-693 | the bytes of a removal: a node with its line or lines to itself goes with them, from the start of the first to behind the line end of the last |
| LineText.NodeAloneGoes | abyss/crates/ec-abyss-config/src/edit.rs:694-699 | any other goes alone, or with the `;` that blanks lead up to |
| LineText.BehindNode | abyss/crates/ec-abyss-config/src/edit.rs:703-721 | what is written behind a node goes on a line of its own, indented like the node's: behind the node's line, or right behind the node when more than a comment follows there |
| LineText.IntoEmptyBlock | abyss/crates/ec-abyss-config/src/edit.rs:728-744 | what is written into an empty block goes on a line of its own, a tab further in where the block's line has one and else four blanks, before the line of the closing brace or breaking the line there |
| LineText.BuiltText | abyss/crates/ec-abyss-config/src/edit.rs:224-248 | the lines of a missing path: each block opens on its line, its child is four blanks further in, its brace is on a line of its own, and a blank comes before each value |
| LineText.KeyBehindLine | abyss/crates/ec-abyss-config/src/edit.rs:326-329 | a new key goes behind the last child's line with the child's own indentation, when no more than a comment follows the child there |
| LineText.KeyBehindChild | abyss/crates/ec-abyss-config/src/edit.rs:330-343 | else right behind the child and its `;`, four blanks further in than the block's line |
| LineText.KeyAlone | abyss/crates/ec-abyss-config/src/edit.rs:345-346 | in an empty block between its braces, in an empty file at its end |
| LineText.BlockIs | abyss/crates/ec-abyss-config/src/edit.rs:748-760 | a block as it is written: the opening line, each line of the body one level in, the brace where the opening line starts |
| LineText.BehindLastOfKind | abyss/crates/ec-abyss-config/src/edit.rs:476-477 | a block of a new name is written behind the last of its kind, indented like that one |
| LineText.BehindLastOfSection | abyss/crates/ec-abyss-config/src/edit.rs:478-484 | with none of the kind it becomes the last child of the last section with braces, indented like the child that was last |
| LineText.IntoEmptySection | abyss/crates/ec-abyss-config/src/edit.rs:478-484 | or goes into that section's empty braces, one level in |
| LineText.InNewSection | abyss/crates/ec-abyss-config/src/edit.rs:485-496 | and with no such section into a new one, on a line of its own at the end of the file |
| LineText.BackBefore | abyss/crates/ec-abyss-config/src/edit.rs:571-576 | a block is put back before the one that has its place: its bytes, a line end, and the indentation of that line |
| LineText.BackBehind | abyss/crates/ec-abyss-config/src/edit.rs:577-582 | and past the last name behind the block that brings it, as behind any node |
| Splice.SpliceAll | abyss/crates/ec-abyss-config/src/edit.rs:763-770 | edits in any order are made in place from the last start to the first, or the splice panics on a range past the end; for all disjoint edits the result is the one left-to-right rebuild |
| Splice.MadeIsRebuilt | abyss/crates/ec-abyss-config/src/edit.rs:763-770 | disjoint edits, however ordered, never panic and give that rebuild |
| Splice.AllMadeSize | abyss/crates/ec-abyss-config/src/edit.rs:763-770 | edits that do not panic change the size of the text by what they span and write, even where they overlap |
| Splice.SortSorts | abyss/crates/ec-abyss-config/src/edit.rs:764 | the edits are made in falling order of their starts |
| Splice.LastFirst | abyss/crates/ec-abyss-config/src/edit.rs:765-768 | making the last edit in place and rebuilding with the others is rebuilding with all |
| Prune.PruneText | abyss/crates/ec-abyss-config/src/edit.rs:134-159 | removals that stay within the gaps are pairwise disjoint and in order, and the text rebuilt with them is the text of the tree with those nodes and the blocks they empty cut out, for every file |
| Prune.RemovalsByGaps | abyss/crates/ec-abyss-config/src/edit.rs:687-700 | the edits the editor collects are those exactly when no node that goes starts its line with an exposed gap behind it; otherwise they span more |
| Prune.GoneCounts | abyss/crates/ec-abyss-config/src/edit.rs:134-159 | the walk's count of nodes gone whole is the tree's |
| Prune.LinedIsSafe | abyss/crates/ec-abyss-config/src/edit.rs:678-700 | in a file that ends all its lines with `\n` that is always so |
| Remove.RemoveValue | abyss/crates/ec-abyss-config/src/edit.rs:119-131 | the outcome on any text the parser reads: a bad path, an unreadable file, the same bytes when the path leads nowhere, else the edits made in place; they give the text of the tree with every definition gone if and only if the removals are safe; whatever is returned the parser reads |
| Remove.RemovedExactly | abyss/crates/ec-abyss-config/src/edit.rs:127-130 | the same of the edits alone, in whatever order they were collected: the text of the tree left exactly when the removals are safe |
| Remove.NoneLeft | abyss/crates/ec-abyss-config/src/edit.rs:134-159 | no definition of the path is left |
| Remove.OthersKept | abyss/crates/ec-abyss-config/src/edit.rs:134-159 | every path apart from it leads to the same nodes, byte for byte and in order |
| Remove.SurvivorsKept | abyss/crates/ec-abyss-config/src/edit.rs:134-159 | the nodes left are the others, in order, each untouched unless the path goes through it |
| Remove.BlockGoesWhenEmptied | abyss/crates/ec-abyss-config/src/edit.rs:151-156 | a block on the path goes exactly when it has no arguments, is not at the top and has lost all of the children it had |
| Remove.EditsWhenFound | abyss/crates/ec-abyss-config/src/edit.rs:127-130 | there is an edit exactly when the path leads somewhere |
| Remove.AbsentKeeps | abyss/crates/ec-abyss-config/src/edit.rs:119-131 | cutting a path that leads nowhere leaves the tree as it is |
| Remove.RemoveTwice | abyss/crates/ec-abyss-config/src/edit.rs:119-131 | a second removal returns the first one's bytes exactly when the tree the parser reads from them has no definition of the path, as the tree that is left has none; whether or not the first removal was safe |
| Remove.FileText | abyss/crates/ec-abyss-config/src/edit.rs:134-159 | for a whole file the edits kept within the gaps fit it and leave the text of the cut tree |
| Remove.RemoveBlock | abyss/crates/ec-abyss-config/src/edit.rs:502-513 | every block of the name goes, or it is not found; a section left empty stays; exactly as for a path; whatever is returned the parser reads |
| SetValue.SetValue | abyss/crates/ec-abyss-config/src/edit.rs:74-77 | the outcome on any text the parser reads: a bad path, an unreadable file, not a value, or the one edit made and then, on what that left, the removals of the keys superseded; the first is the text of the tree with the value set exactly where the place is clear, and the second the text of that tree without those keys exactly where the removals are safe |
| SetValue.SpliceValue | abyss/crates/ec-abyss-config/src/edit.rs:183-264 | the shared part, for a single value and for a list: the bytes written are the text of the tree with the value set if and only if no comment hides the end of the block a new key goes into |
| SetValue.SplicedExactly | abyss/crates/ec-abyss-config/src/edit.rs:183-264 | the same of the edit alone |
| SetValue.FindPath | abyss/crates/ec-abyss-config/src/edit.rs:285-354 | the walk down the last block of each name ends where the recursive reading of the path ends |
| SetValue.Build | abyss/crates/ec-abyss-config/src/edit.rs:224-248 | the lines written for missing blocks are the text of the nested nodes |
| SetText.PutText | abyss/crates/ec-abyss-config/src/edit.rs:183-354 | whatever the walk finds, the one edit made leaves the text of the tree with the value put in, or is an insertion behind the line of the right place, just where the gap there is exposed |
| SetText.MissingText | abyss/crates/ec-abyss-config/src/edit.rs:216-264 | inserting after the last child, on a closing line, between empty braces or at the end of the file is adding a new last child, unless the gap behind the last child is exposed |
| SetText.AstrayDiffers | abyss/crates/ec-abyss-config/src/edit.rs:325-347 | an insertion astray never leaves the bytes the right one does |
| SetText.LinedIsReached | abyss/crates/ec-abyss-config/src/edit.rs:325-347 | in a file that ends all its lines with `\n` no insertion is astray |
| SetText.LeafText | abyss/crates/ec-abyss-config/src/edit.rs:191-214 | replacing the run of bytes of the first argument, or of a list's arguments, is changing those arguments |
| SetText.NodeEditText | abyss/crates/ec-abyss-config/src/edit.rs:360-384 | the same within the node, also for an emptied list and one without arguments |
| Effect.PutSets | abyss/crates/ec-abyss-config/src/edit.rs:285-354 | of the definitions of the path, in document order, only the one the walk down the last node of each name ends at changes, and in it only the value; where the walk ends before, there is one more definition behind them all, with nothing but the value |
| Effect.TakesValue | abyss/crates/ec-abyss-config/src/edit.rs:195-207 | a node takes a value in its first unnamed argument and keeps its name, children, other arguments and blanks; it refuses exactly when it has no such argument, and a list exactly when it has children or a named argument |
| Effect.PutKeeps | abyss/crates/ec-abyss-config/src/edit.rs:183-354 | every path that is not a prefix of the one set leads to the very same nodes |
| Effect.BuiltHolds | abyss/crates/ec-abyss-config/src/edit.rs:224-248 | the new blocks lead to the new value |
| Effect.PutStands | abyss/crates/ec-abyss-config/src/edit.rs:183-354 | once put in, the value stands: the walk down the last block of each name ends at it |
| Effect.PutAgain | abyss/crates/ec-abyss-config/src/edit.rs:183-354 | putting in a value that stands leaves the tree as it is, wherever its text is by then |
| Effect.CutStands | abyss/crates/ec-abyss-config/src/edit.rs:91-111 | a value that stands still does when nodes go that its path is apart from |
| SetValue.SetAgain | abyss/crates/ec-abyss-config/src/edit.rs:207-209 | a second identical write finds the value set |
| SetValue.WriteTwice | abyss/crates/ec-abyss-config/src/edit.rs:183-264 | a second identical write of a value or a list returns identical bytes exactly when setting the value in the tree read from them changes none of its text, as it does not in the tree they were written from; whether or not the place was clear |
| SetValue.SplicedSame | abyss/crates/ec-abyss-config/src/edit.rs:183-264 | the bytes come back as they were exactly when the tree has the value already |
| SetValue.SetTwice | abyss/crates/ec-abyss-config/src/edit.rs:74-77 | a second identical `set_value` returns identical bytes when the tree read from them has the value and none of the legacy keys, as the tree the first made has |
| SetValue.DroppedAgain | abyss/crates/ec-abyss-config/src/edit.rs:74-111 | after both the value is found set and no legacy key is left to drop |
| SetValue.DropSuperseded | abyss/crates/ec-abyss-config/src/edit.rs:91-111 | the removals of every legacy spelling of the key just set, in the whole file, made in place together, which leave the text of the tree without them exactly when they are safe; a file without one is returned as it is. Which spellings is said in the four rows below SetAndDropped |
| SetValue.UnitedRemovals | abyss/crates/ec-abyss-config/src/edit.rs:91-111 | collecting the removals of several legacy keys is collecting those of any of them, once each |
| SetValue.SetAndDropped | abyss/crates/ec-abyss-config/src/edit.rs:74-111 | after both, the last definition holds the value, no legacy key is left, and every path apart from both leads where it did |
| SetValue.LauncherStyle | abyss/crates/ec-abyss-config/src/edit.rs:83-111 | after setting `launcher.style` nothing is left at `bar.launcher-style`, and every path beside the two leads where it did |
| SetValue.BlurMode | abyss/crates/ec-abyss-config/src/edit.rs:83-111 | likewise `decoration.blur.mode` and `decoration.blur.enabled` |
| SetValue.AnimationsPreset | abyss/crates/ec-abyss-config/src/edit.rs:83-111 | likewise `animations.preset` and both `animations.enabled` and `animations.animation` |
| SetValue.OtherKeysDropNothing | abyss/crates/ec-abyss-config/src/edit.rs:83-100 | setting any other path drops nothing |
| BlockTree.CutLeavesOthers | abyss/crates/ec-abyss-config/src/edit.rs:502-513 | taking the blocks of a name out leaves the other blocks of the kind, in order and byte for byte |
| BlockTree.SetLastReplaces | abyss/crates/ec-abyss-config/src/edit.rs:469-479 | changing the last block of a name changes that block in the list of its kind and no other |
| BlockTree.SettledKeeps | abyss/crates/ec-abyss-config/src/edit.rs:469-479 | blocks of every other name keep their bytes and order around it |
| BlockText.SetLastRemovals | abyss/crates/ec-abyss-config/src/edit.rs:469-479 | the removals of all but the last block of a name are those of the tree in which the last no longer has the name |
| BlockText.SetLastText | abyss/crates/ec-abyss-config/src/edit.rs:469-479 | changing the last block's bytes is changing that node of the tree |
| BlockText.SettledExactly | abyss/crates/ec-abyss-config/src/edit.rs:469-479 | the edit of the last block and the removals of the earlier ones, made in place, give the text of the settled tree if and only if the earlier removals are safe |
| BlockText.EarlierByGaps | abyss/crates/ec-abyss-config/src/edit.rs:687-700 | the removals of all but the last are those kept within the gaps exactly when they are safe; otherwise they span more |
| NamedBlocks.Settle | abyss/crates/ec-abyss-config/src/edit.rs:524-535 | as the editor does it: those edits made in place, which give the text of the settled tree exactly where the earlier removals are safe, or a refusal if the parser cannot read it |
| NamedBlocks.RenameBlock | abyss/crates/ec-abyss-config/src/edit.rs:517-536 | the outcome on any text the parser reads: the new name is taken, the old one is not there, or those edits made in place, which give the text of the tree with the last block renamed and the earlier ones gone exactly where their removals are safe; whatever is returned the parser reads |
| NamedBlocks.RenameSettles | abyss/crates/ec-abyss-config/src/edit.rs:517-536 | afterwards there is exactly one block of the new name, where the last of the old stood, none of the old, and the others as they were |
| NamedBlocks.RetitledIs | abyss/crates/ec-abyss-config/src/edit.rs:527-532 | the block renamed has the new name and is otherwise as it was, to the blanks before the name |
| NamedBlocks.RenameKeepsRest | abyss/crates/ec-abyss-config/src/edit.rs:517-536 | every path apart from the blocks of the kind leads to the very same nodes |
| UpsertBlock.UpsertBlock | abyss/crates/ec-abyss-config/src/edit.rs:458-498 | the outcome on any text the parser reads, for any lines, by whether the name, the kind or the section is there; for lines that are nodes, and where no comment hides the place, it is the text of the tree with the block in it; whatever is returned the parser reads |
| UpsertBlock.Render | abyss/crates/ec-abyss-config/src/edit.rs:748-760 | the lines written, whatever they say, each one level in |
| UpsertBlock.RenderedText | abyss/crates/ec-abyss-config/src/edit.rs:748-760 | when the lines are the texts of nodes that is the text of the block's node |
| UpsertBlock.WrittenExactly | abyss/crates/ec-abyss-config/src/edit.rs:465-475 | the text with an existing block written anew and the earlier ones removed is the text of the tree with the one block if and only if those removals are safe |
| UpsertBlock.AddedExactly | abyss/crates/ec-abyss-config/src/edit.rs:476-497 | the text with a new block written in is the text of the tree with the block added if and only if no comment hides the place |
| UpsertBlock.LinedUpsertsClear | abyss/crates/ec-abyss-config/src/edit.rs:458-498 | in a file that ends all its lines with `\n` none does |
| UpsertBlock.WrittenSettles | abyss/crates/ec-abyss-config/src/edit.rs:465-480 | an existing block is replaced where the last of its name stood, the earlier ones go, the others stay as they were |
| UpsertBlock.AddedLast | abyss/crates/ec-abyss-config/src/edit.rs:481-497 | a new block comes after all others of its kind, and those stay as they were |
| UpsertBlock.UpsertSettles | abyss/crates/ec-abyss-config/src/edit.rs:458-498 | either way exactly one block of the name is left, with the body given |
| UpsertBlock.WrittenKeepsRest | abyss/crates/ec-abyss-config/src/edit.rs:465-475 | every path apart from the blocks of the kind leads to the very same nodes |
| UpsertBlock.AddedKeepsRest | abyss/crates/ec-abyss-config/src/edit.rs:476-497 | the same for a block of a new name, also in a section of its own |
| UpsertBlock.AppendText | abyss/crates/ec-abyss-config/src/edit.rs:724-744 | writing before a section's closing brace, or on a line of its own, is adding a last child, exactly where no comment hides the brace |
| UpsertAgain.UpsertTwice | abyss/crates/ec-abyss-config/src/edit.rs:458-498 | a second identical call returns the same bytes if and only if the line of the last block starts, once the earlier ones of the name are gone, with the blanks it started with; for every text and parser that reads what was written for what it is |
| UpsertAgain.AgainExactly | abyss/crates/ec-abyss-config/src/edit.rs:465-475 | the same of the tree the first call leaves; for a new block, and for one that is the only one of its name, the condition always holds |
| UpsertAgain.OwnLineIsSteady | abyss/crates/ec-abyss-config/src/edit.rs:465-475 | and for a block with a line end in the gap before it |
| UpsertAgain.SettlesDown | abyss/crates/ec-abyss-config/src/edit.rs:458-498 | the tree a call leaves has one block of the name, so a third call changes nothing after the second |
| UpsertAgain.AddedGap | abyss/crates/ec-abyss-config/src/edit.rs:476-497 | a new block stands behind a line end and just the blanks it was rendered for, wherever it goes |
| UpsertAgain.IndentTold | abyss/crates/ec-abyss-config/src/edit.rs:748-760 | the bytes of a rendered block tell the indentation it was rendered for |
| BlockLine.CutLeft | abyss/crates/ec-abyss-config/src/edit.rs:465-475 | what comes before the last block once the earlier ones are cut out, told from the gaps of the tree |
| BlockLine.BeforeSits | abyss/crates/ec-abyss-config/src/edit.rs:686-700 | what comes before a block in the tree is the text up to it |
| SharedLine.CopyShifts | abyss/crates/ec-abyss-config/src/edit.rs:458-475 | a file the editor gets wrong: with two copies of a block on one line the first call leaves the last behind five blanks, rendered for four, and the second identical call writes other bytes |
| BlockInsert.AfterText | abyss/crates/ec-abyss-config/src/edit.rs:703-721 | writing after a block, past the rest of its line or not, is adding the sibling behind it, exactly where the gap there is not exposed |
| BlockInsert.LinedIsClear | abyss/crates/ec-abyss-config/src/edit.rs:678-683 | in a file that ends all its lines with `\n` it never is |
| BlockInsert.BeforeText | abyss/crates/ec-abyss-config/src/edit.rs:571-576 | writing in front of a block is adding the sibling before it |
| BlockInsert.AfterList | abyss/crates/ec-abyss-config/src/edit.rs:703-721 | in the list of the kind it stands right after that block |
| BlockInsert.BeforeList | abyss/crates/ec-abyss-config/src/edit.rs:571-576 | in the list of the kind it stands right before that block |
| BlockNames.KeysInsert | abyss/crates/ec-abyss-config/src/edit.rs:439-450 | a block of a new name takes its place among the names after those that appear before it |
| BlockNames.RemovedNames | abyss/crates/ec-abyss-config/src/edit.rs:439-450 | taking the blocks of a name out takes that name out of the names and moves no other |
| BlockNames.InsertedNames | abyss/crates/ec-abyss-config/src/edit.rs:565-583 | where a block of a new name stands among the names: at the index asked for, or one earlier when a block without a name comes first |
| MoveBlock.MoveBlock | abyss/crates/ec-abyss-config/src/edit.rs:540-585 | the outcome on any text the parser reads: not found, no such index, unchanged, or the block taken out and put back in place; both ways: what is left is the text of the tree without the block exactly when the removals are safe, and the result that of the tree with the block put back exactly when the place is clear; whatever is returned the parser reads |
| MoveBlock.MovedExactly | abyss/crates/ec-abyss-config/src/edit.rs:540-585 | the same of the edits alone |
| MoveBlock.MoveLands | abyss/crates/ec-abyss-config/src/edit.rs:540-585 | afterwards the other blocks are in order and byte for byte, with one copy of the one moved among them; its place among the distinct names is the index exactly when no block without a name comes before the place, and one less otherwise; the only failure left is that the name was the only one |
| MoveBlock.MoveKeepsRest | abyss/crates/ec-abyss-config/src/edit.rs:540-585 | every path apart from the blocks of the kind leads to the very same nodes |
| MoveBlock.MisplacedByUntitled | abyss/crates/ec-abyss-config/src/edit.rs:565-576 | a file the editor gets wrong: in `bar { widget; widget "a"; widget "b" }` asked to move `a` to place 1 it writes a line end and leaves the names in their order |
| MoveBlock.Firsts | abyss/crates/ec-abyss-config/src/edit.rs:565-570 | the first block of each name, blocks without a name counting as one more |
| MoveBlock.PutBack | abyss/crates/ec-abyss-config/src/edit.rs:564-584 | the edit that puts the block back, or not found when no block is left to put it beside |
| MoveBlock.PutBackExactly | abyss/crates/ec-abyss-config/src/edit.rs:571-583 | the text with the block put back is the text of the tree with it put back if and only if the place is clear |
| MoveBlock.NamedIsFound | abyss/crates/ec-abyss-config/src/edit.rs:541-544 | a name is listed exactly when there is a block of it |
| ListItem.ReplaceListItem | abyss/crates/ec-abyss-config/src/edit.rs:590-621 | on every text the parser reads: a bad path, an unreadable file, the same bytes when no definition of the list has the argument, else the text of the tree with it renamed or dropped in every definition; whatever is returned the parser reads |
| ListItem.FileYields | abyss/crates/ec-abyss-config/src/edit.rs:598-620 | the edits are disjoint for every file, and leave the text of that tree |
| ListItem.FindSpots | abyss/crates/ec-abyss-config/src/edit.rs:652-660 | the walk finds the nodes of the path and where each starts |
| ListItem.ArgumentEdits | abyss/crates/ec-abyss-config/src/edit.rs:600-615 | the edits of one list, each value or each argument with the blanks before it |
| ListItem.ReplacedStrings | abyss/crates/ec-abyss-config/src/edit.rs:587-589 | the list reads as before with the element renamed or dropped |
| ListItem.RenamedEntries | abyss/crates/ec-abyss-config/src/edit.rs:608-612 | a rename writes the value anew and keeps the blanks before it; every other argument stays as it is, in its place |
| ListItem.DroppedEntries | abyss/crates/ec-abyss-config/src/edit.rs:613-614 | a removal leaves the others as they are, in their order |
| ListItem.RenamedIs | abyss/crates/ec-abyss-config/src/edit.rs:587-589 | the old element is gone; a rename keeps every place, a removal every other element as often as it was there |
| ListItem.DefinitionsReplaced | abyss/crates/ec-abyss-config/src/edit.rs:587-589 | so in every definition, which is otherwise as it was |
| ListItem.OtherPathsKept | abyss/crates/ec-abyss-config/src/edit.rs:587-589 | every path that is no prefix leads to the very same nodes |
| ListItem.ReplaceTwice | abyss/crates/ec-abyss-config/src/edit.rs:590-621 | a second identical call returns the same bytes |
| LineEnds.CommentTakesNext | abyss/crates/ec-abyss-config/src/edit.rs:686-700 | a file the editor gets wrong: in `a // x` and `b` parted by a next-line character, removing `a` removes `b` too |
| LineEnds.CommentPanics | abyss/crates/ec-abyss-config/src/edit.rs:763-770 | with both nodes called `a`, removing them panics on a range past the end |
| LineEnds.CommentHidesBrace | abyss/crates/ec-abyss-config/src/edit.rs:325-329 | in `x{a//c`, a carriage return and `}`, a new key of `x` is written behind the brace, at the top of the file |
| WidgetHash.PreimageBack | abyss/crates/ec-abyss-config/src/widget_hash.rs:74-106 | what is fed to the hash can be read back from the front of anything it starts: kind, arguments, interval and the three optional actions |
| WidgetHash.PreimageMeansRunning | abyss/crates/ec-abyss-config/src/widget_hash.rs:74-106 | two widgets feed the hash the same bytes exactly when they run the same, and neither's bytes are a proper start of the other's |
| WidgetHash.ApprovalsApart | abyss/crates/ec-abyss-config/src/widget_hash.rs:74-130 | whatever the hash, widgets share one exactly when they run the same or collide, command lists exactly when they are equal or collide, and hashes of two of the three contexts are equal only by a collision: an approval covers one definition or a collision of the hash has been found |
| WidgetHash.HashOf | abyss/crates/ec-abyss-config/src/widget_hash.rs:74-106 | the hasher, fed step by step, gives the hash of that preimage under the widgets' context, and nothing for a source widget |
| WidgetHash.HashList | abyss/crates/ec-abyss-config/src/widget_hash.rs:113-130 | what the two list hashes have in common, under the context given |
| WidgetHash.ModelCommandHash | abyss/crates/ec-abyss-config/src/widget_hash.rs:107-117 | the model command's list under its own context |
| WidgetHash.QuickActionHash | abyss/crates/ec-abyss-config/src/widget_hash.rs:119-130 | a quick action's list under its own |
| WidgetHash.Hasher.PutStr | abyss/crates/ec-abyss-config/src/widget_hash.rs:132-135 | a string goes in behind its length |
| WidgetHash.Hasher.PutList | abyss/crates/ec-abyss-config/src/widget_hash.rs:137-142 | a list goes in behind its count, each item as a string |
| WidgetHash.ListBack | abyss/crates/ec-abyss-config/src/widget_hash.rs:137-142 | a list reads back from the front of anything, its items' boundaries kept |
| WidgetHash.ActionBack | abyss/crates/ec-abyss-config/src/widget_hash.rs:97-104 | an absent action and an empty one stay apart |
| WidgetHash.ToHex | abyss/crates/ec-abyss-config/src/widget_hash.rs:33-40 | two lower-case digits a byte |
| WidgetHash.HexReads | abyss/crates/ec-abyss-config/src/widget_hash.rs:33-40 | the upper half of each byte first, then the lower |
| WidgetHash.FromHex | abyss/crates/ec-abyss-config/src/widget_hash.rs:43-58 | reads exactly what is written by `to_hex` and refuses everything else |
| Approvals.GetSet | abyss/crates/ec-abyss-config/src/approvals.rs:64-82 | after a write the name reads as the new hash and every other name as before |
| Approvals.Store.Lookup | abyss/crates/ec-abyss-config/src/approvals.rs:64-66 | the search reads the store |
| Approvals.Store.Record | abyss/crates/ec-abyss-config/src/approvals.rs:77-82 | the entry of that name is replaced in place, or one is added at the end |
| Approvals.Store.Load | abyss/crates/ec-abyss-config/src/approvals.rs:105-129 | each line that approves something is recorded in turn, every other line is skipped, and a file that is not KDL is an empty store |
| Approvals.Store.Save | abyss/crates/ec-abyss-config/src/approvals.rs:131-144 | one line an entry, in order |
| Approvals.ParseOk | abyss/crates/ec-abyss-config/src/approvals.rs:105-129 | whatever the file, the names read are distinct and not empty |
| Approvals.ParseRender | abyss/crates/ec-abyss-config/src/approvals.rs:105-144 | what is written reads back, except an entry without a name |
| Approvals.FileBack | abyss/crates/ec-abyss-config/src/approvals.rs:105-144 | a store of distinct named entries comes back from its file as it was |
| Approvals.StepKeepsInv | abyss/crates/ec-abyss-config/src/approvals.rs:203-256 | each send, read, temporary write, rename, failure and crash keeps the invariant |
| Approvals.RunKeepsInv | abyss/crates/ec-abyss-config/src/approvals.rs:173-256 | under every interleaving the file is never torn, although a rename moves whatever the temporary file holds, and reads as the first approvals with the saved jobs made in the order they were sent: no update lost, and the jobs still waiting are the rest of those sent |
| Approvals.FoldGet | abyss/crates/ec-abyss-config/src/approvals.rs:64-82 | in what the file reads as, a name has the hash of the last saved job on it, or the one it had at first |
| Approvals.NothingInvented | abyss/crates/ec-abyss-config/src/approvals.rs:173-256 | no name ever reads as a hash that was neither there at first nor sent for it |
| Approvals.GoodJob | abyss/crates/ec-abyss-config/src/approvals.rs:231-256 | a job that nothing fails for is saved: the file then reads with its hash under its name and else as it did, and the writer is ready for the next |
| Approvals.SavedByRenaming | abyss/crates/ec-abyss-config/src/approvals.rs:247-256 | jobs are saved by renaming and by nothing else, one each time; without a rename the file is as it was |
| KeyColors.KeyColors | browser/firefox-glass/shared/glass.js:138-161 | each key is its region's intended colour pushed no further than the loop needs and nudged in its channel; in light mode for every lift, and in dark mode for every tint with red at most 245, or green or blue at most 247, every loop ends within 8 pushes and every two of the tint and the four keys are at least two apart, except the base, which is one from the tint; for a dark tint with every channel at least 252 that fails for every lift |
| KeyColors.KeyChannels | browser/firefox-glass/shared/glass.js:145-157 | the keys channel by channel: the base is the tint one off in red; each other is the tint lightened by up to 16 hundredths, in light mode 40, of what is left to white as its lift says, to the nearest, pushed by twos as often as its steps, up in dark mode and down in light, and one off in green, blue and red |
| KeyColors.Separate | browser/firefox-glass/shared/glass.js:150-154 | the loop ends at the first step that is near nothing placed, or at the fortieth |
| KeyColors.FreeStep | browser/firefox-glass/shared/glass.js:150-154 | the counting argument: a placed value is near at most two steps of one channel, so one of more than twice as many steps is free |
| KeyColors.SeparatesSoon | browser/firefox-glass/shared/glass.js:150-154 | with room in one channel the loop ends within twice the number of colours placed, at a colour near none of them |
| KeyColors.CloseAtMostTwice | browser/firefox-glass/shared/glass.js:150-154 | of the values two apart at most two are within one of a given value |
| KeyColors.Growth | browser/firefox-glass/shared/glass.js:150-154 | the growth argument: in any channel a key ends at most three above the highest value placed, so it comes apart while that is at most 255 |
| KeyColors.GrowthAtEnd | browser/firefox-glass/shared/glass.js:150-154 | the last key still comes apart where 255 is two above what is placed |
| KeyColors.AllApart | browser/firefox-glass/shared/glass.js:145-159 | the keys come apart for every lift, by the counting argument up to 235 and by growth up to 245, or 247 in the channels the base key is not nudged in |
| KeyColors.WhiteHasNoRoom | browser/firefox-glass/shared/glass.js:145-153 | for a tint with every channel at least 252 no lifts keep the tint and the four keys apart: a push leads to one of two colours, and there are three keys to push |
| KeyColors.FlatComesApart | browser/firefox-glass/shared/glass.js:145-159 | between the two the lifts decide: the keys of the tint (246, 253, 254) come apart with all lifts at 0 |
| KeyColors.LiftedDoesNot | browser/firefox-glass/shared/glass.js:145-159 | and do not with the popups' and the sidebar's lift at 100 |
| KeyColors.BaseIsOneAway | browser/firefox-glass/shared/glass.js:155 | the base key differs from the tint in every case, so the other nudge is never taken |
| Reconnect.RunKeepsInv | browser/firefox-glass/background.js:42-127 | in every state that can be reached: exactly one of a live port and an armed timer; the delay, and every delay a timer was armed for, is 1000 doubled for each failure the events tell since the last connected status, at most 30000; the statuses stored are those the events tell, repeats taken together; every answer was posted on the port there was, whichever port its report began on, unless that port had heard the same last |
| Reconnect.StepKeepsInv | browser/firefox-glass/background.js:42-127 | each handler and each resumed report keeps that |
| Reconnect.StepShows | browser/firefox-glass/background.js:42-127 | what one more event does to the variables is what it adds to that account, which is told from the events alone |
| Reconnect.BackoffDoubles | browser/firefox-glass/background.js:83-90 | the delay after one more schedule |
| Reconnect.Background.Begin | browser/firefox-glass/background.js:55-81 | the first `connect()` on the script's own variables, whether the port opens or throws |
| Reconnect.Background.FireTimer | browser/firefox-glass/background.js:83-90 | the retry timer's callback takes the step of the protocol and keeps the invariant |
| Reconnect.Background.HandleStatus | browser/firefox-glass/background.js:67-73 | the status listener likewise |
| Reconnect.Background.EndReport | browser/firefox-glass/background.js:119-126 | the part of `report` after its await, on whatever port there is by then, keeps the invariant; if nothing throws its payload is what was last posted |
| Reconnect.Background.HandleDisconnect | browser/firefox-glass/background.js:74-79 | the disconnect listener likewise; afterwards no port is live and a timer is armed |
| Reconnect.Background.HandleChange | browser/firefox-glass/background.js:92-93 | a report up to its await likewise |
| Binds.MergeBinds | abyss/crates/ec-abyss-config/src/binds.rs:18-32 | the two loops give the file's binds, the last on a chord winning, over the defaults, the first winning |
| Binds.FileWins | abyss/crates/ec-abyss-config/src/binds.rs:20-25 | one bind a chord, and on each the action of the last bind on it in load order |
| Binds.FirstWins | abyss/crates/ec-abyss-config/src/binds.rs:26-30 | a layer put under what is there changes no chord that is taken and adds its own first bind on the others |
| Binds.TakesLaunchers | abyss/crates/ec-abyss-config/src/lib.rs:350-356 | the `take_while` takes exactly the launcher's own binds |
| Binds.LoadBinds | abyss/crates/ec-abyss-config/src/lib.rs:344-359 | the table `load_with` makes of every file's binds has one bind a chord, and every chord fires the last bind of the files on it, as they were read, unless it is the agent's; else the first set among Oracle Eyes, else the launcher when chosen for it, else the mode's, else the built-in |
| Binds.LoadIsLayered | abyss/crates/ec-abyss-config/src/lib.rs:344-359 | the concatenations there amount to file over Oracle Eyes over launcher over mode over built-in |
| Binds.OnePerChord | abyss/crates/ec-abyss-config/src/lib.rs:344-359 | for every chord the table has one bind or none, and its action is that of the first layer that has the chord |
| Binds.Accepted | abyss/crates/ec-abyss-config/src/parse.rs:145-167 | no bind on a reserved chord gets past the parser |
| Binds.AcceptedLast | abyss/crates/ec-abyss-config/src/lib.rs:634-637 | and of the binds on any other chord the last is still the last |
| Binds.ChordBinds | abyss/crates/ec-abyss-config/src/general.rs:673-686 | chords that are set become binds, the first of equals firing |
| Binds.LauncherFires | abyss/crates/ec-abyss-config/src/binds.rs:126-136 | either chord chosen for it launches, and no other |
| Binds.NoLaunchFires | abyss/crates/ec-abyss-config/src/binds.rs:137 | taking out the shipped launcher chords leaves what else comes first on a chord |
| Binds.AgentKeepsItsChords | abyss/crates/ec-abyss-config/src/lib.rs:344-359 | Super+Escape, Super+Shift+Escape and Super+space do what the agent's built-in binds say, whatever the files, mode, launcher and Oracle Eyes settings |
| Binds.BuiltIns | abyss/crates/ec-abyss-config/src/binds.rs:126-139 | the built-in table less the shipped launcher chords: the agent's binds first, then none on a reserved chord |
| Binds.ShiftTabSteps | abyss/crates/ec-abyss-config/src/lib.rs:786-801 | the lookup that also tries Tab for a left Tab: under the config's own mode Alt+Shift+Tab steps the switcher back in `de` and does nothing in the others, unless a file or a setting takes the chord |
| Binds.LaunchesWhenChosen | abyss/crates/ec-abyss-config/src/binds.rs:120-139 | where no file or Oracle Eyes chord comes first a chord launches exactly when it is one of the two chosen |
| Binds.WorkspaceKeys | abyss/crates/ec-abyss-config/src/binds.rs:434-486 | unless taken, Super and a digit switch to the workspace, 0 being the tenth, Shift takes the window there and Ctrl to the output of that number |
| Binds.SymbolKeys | abyss/crates/ec-abyss-config/src/binds.rs:448-486 | so does Super, Shift and the symbol on the digit |
| Binds.ArrowKeys | abyss/crates/ec-abyss-config/src/binds.rs:34-82 | unless taken, Super and an arrow tile in `de` and move the focus in the other modes |
| Binds.DeKeys | abyss/crates/ec-abyss-config/src/binds.rs:46-116 | the other chords of `de`: the desktop grid, Alt+F4, Alt+Tab, Super+W and Super+PageUp |
| WidgetBlocks.Block | abyss/crates/ec-abyss-config/src/apply_bar.rs:564-693 | a block records an error for each child that is unknown, repeated or holds what it cannot, and one more when it is not something to run or a source with what goes with it; without one it defines the widget its children describe: command, stream or source, interval or 5000, format or "{}", icon, and the three actions each from the child of its key |
| WidgetBlocks.ChildrenRead | abyss/crates/ec-abyss-config/src/apply_bar.rs:564-637 | the loop over the children leaves in each field what the first child of its key holds |
| WidgetBlocks.StoreAt | abyss/crates/ec-abyss-config/src/apply_bar.rs:702-705 | a widget takes the place of the one of its name, or comes last |
| WidgetBlocks.RefusedChangesNothing | abyss/crates/ec-abyss-config/src/apply_bar.rs:543-706 | a refused block adds errors and its claim on the name and changes nothing else; an accepted one adds or replaces just its widget |
| WidgetBlocks.StoreKeeps | abyss/crates/ec-abyss-config/src/apply_bar.rs:702-705 | stored names stay unique, and the names stored are the old ones and the new one |
| WidgetBlocks.IdsPlaced | abyss/crates/ec-abyss-config/src/apply_bar.rs:301-349 | an id placed is built in, or a custom one that waits to be checked |
| WidgetBlocks.IdsChosen | abyss/crates/ec-abyss-config/src/apply_bar.rs:301-349 | of a list the ids that may be placed are kept, once each and in order, every other is an error, and the custom ones wait to be checked |
| WidgetBlocks.LastListStands | abyss/crates/ec-abyss-config/src/apply_bar.rs:229-250 | of several lists in a block the last of each kind stands, with an error for each but the first |
| WidgetBlocks.FileKeepsInv | abyss/crates/ec-abyss-config/src/lib.rs:736-754 | after every file each claimed name is stored and each placed id has a block, or an error was recorded |
| WidgetBlocks.LoadKeepsInv | abyss/crates/ec-abyss-config/src/lib.rs:736-754 | and so after any sequence of files |
| WidgetBlocks.CleanLoadDropsNothing | abyss/crates/ec-abyss-config/src/lib.rs:580-614 | a load without errors starts with every id it was given |
| WidgetBlocks.StartedIdsHaveBlocks | abyss/crates/ec-abyss-config/src/lib.rs:580-614 | in a session that starts, whatever was refused, each of the two id lists holds just the ids it held that are built in or have a block, and the invariant is kept |
| WidgetBlocks.RetainSplits | abyss/crates/ec-abyss-config/src/lib.rs:600-601 | the ids left keep their order |
| WidgetBlocks.FatalCounts | abyss/crates/ec-abyss-config/src/lib.rs:580-584 | startup is refused with the number of fatal errors, if there is one |
| WidgetBlocks.Config.ApplyBarWidget | abyss/crates/ec-abyss-config/src/apply_bar.rs:543-706 | the method on the fields of the config: errors, claims and widgets as Block and StoreAt say |
| WidgetBlocks.Config.CheckCustomWidgetIds | abyss/crates/ec-abyss-config/src/lib.rs:736-754 | each waiting id without a block is an error, and none waits any more |
| WidgetBlocks.Config.Settle | abyss/crates/ec-abyss-config/src/lib.rs:580-614 | `startup`: refused as it is when something is fatal, else each of the two id lists is cut down to the ids with a block, and the invariant is kept |
| Percentile.NearestRank | abyss/bench/src/lib.rs:53-61 | the percentile is a sample with at least the share p of all samples at or below it, and no smaller sample has that many; of no samples it is zero |
| Percentile.WithinLimit | abyss/bench/src/lib.rs:53-61 | a percentile is within a limit exactly when that share of the samples is |
| Percentile.VerdictSays | abyss/bench/src/budgets.rs:54-62 | a run passes exactly when 99 of 100 samples are within the target and fails exactly when fewer are within what the row still allows |
| Percentile.MonotoneInP | abyss/bench/src/lib.rs:53-61 | it does not fall as p grows |
| Percentile.SortedStaysSlower | abyss/bench/src/lib.rs:126 | sorting keeps one run no faster than another sample by sample |
| Percentile.Measure | abyss/bench/src/lib.rs:110-133 | every sample is kept, in rising order |
| Percentile.MeasureBoth | abyss/bench/src/lib.rs:94-133 | a run no faster call by call has no lower percentile and no better verdict |
| Percentile.SlowerIsNoBetter | abyss/bench/src/budgets.rs:54-62 | the same of any two sets of samples, for a budget with and without a hard limit |

## Left out

- KeyColors.KeyColors: between the tints proved apart (red at most 245, or green or blue at most 247) and those proved never to be (every channel at least 252) the outcome is that of running the loop, tint by tint; the two lemmas at (246, 253, 254) show that there the lifts can decide.
- Gif.Gif: the truncation of the sides to 16 bits and frames of differing sizes are in the code modelled, but what a player shows is stated for frames of one size below 65 536 on each side, as the tool makes them.
- Png.Png: sides are positive and four bytes a pixel stay below 2^31, where the 32-bit size arithmetic of the original is exact.
- MoveBlock.MoveLands: what is said of the list after the move takes the parser to read the text without the block as the tree that text was made from.
- SetValue.SetValue: what dropping the legacy keys does to the tree is stated when the parser reads the text just written as the tree it was written from; the edits themselves are stated for any parser.
- SetValue.SetTwice: that the second call returns other bytes when the tree read from the first call's has a legacy key or lacks the value is not stated; it could in principle write what it removes.
- UpsertBlock.UpsertBlock: the lines of the body are any text and the edits are stated for them all; the tree that results is stated for lines that are the texts of nodes. That quoting a name and reading it back gives the name is the KDL library's, which is not part of this model.
- NamedBlocks.RenameBlock: the new name's literal is given, as above.
- UpsertAgain.UpsertTwice: stated for a parser that reads what the first call wrote as the tree it was written from, and for lines that are the texts of nodes.
- Percentile.NearestRank: ranks are computed over the reals, so the rounding of the floating-point product is not modelled.
- KeyColors.Separate: lifts are reals, likewise.
- WidgetHash.ApprovalsApart: blake3 is a parameter, and nothing is assumed of it; that its collisions cannot be found is not part of this model.
- Approvals.RunKeepsInv: a rename that succeeded is taken to be durable, an existing store to be readable, and the direct `record_approval` not to race the queue.
- The `kdl` library: parsing, quoting and spans are a parameter or part of the tree; blanks its spans may carry behind a node are trimmed as `node_range` does.
- Sorting that is not stable: the samples' and the boxes' sorts are stated by what any sort gives, in order and with the same elements.
- ListItem.ReplaceListItem: an entry that carries no written form, which no parsed file has, and the type annotations of values.
- `locate`, error wording, JSON events and the rendering of errors.
- `did_you_mean`, which runs `nearest`'s search over the schema's paths.
- `downscale`, `contact_sheet`, drawing, EGL and GL, timing, arguments and writing files in the shader preview.
- `apply_bar_action` and quick actions: the same shape as widget blocks.
- The commands the shipped keys spawn, for programs, volume, brightness and players, and the shipped window keys, which are a table.
- Gestures, mouse binds and drag binds, which merge as binds do.
- `output_rule`, range checks, schema tables and default values: each is settled by reading one branch.
- The text of chords and key symbols: a chord is its modifiers and its key, already parsed.
- Key opacity, and the windows and keys that make up a report's payload.
- `startup`'s settling of Xwayland and auto-lock notices.
- Allocation counts, the report table and the clock in the benchmarks.
