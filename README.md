# Line buffer of a line editor, in Dafny

This project models the in-memory text of one document in a line editor. That text is the `Buffer` of `src/buffer.rs`. A buffer holds three things:

- `lines`: the ordered list of lines;
- `file`: the optional path the text is saved to;
- `modified`: a flag that says the text was edited.

The buffer offers bounds-checked edits: insert a character, remove a character, join a line with the one before it, and delete a line. A bad line index fails with `InvalidLineIndex`. A bad column fails with `InvalidColumnIndex`. A failed edit leaves the buffer as it was. The buffer is saved by joining its lines with `'\n'` and loaded by splitting a file's text into lines.

The model has three modules:

- `Text` (`text.dfy`) covers the saved form. `Join` joins the lines with `'\n'` and adds none at the end. `Split` cuts a text into the segments between line breaks. `Lines` is the splitting done on load: a break at the very end starts no new line, and the empty text has no lines. The module proves that splitting undoes joining and that joining undoes splitting. It also proves the exact save-then-load and load-then-save round trips. `Offset` says where each line sits in the saved text.
- `Edits` (`edits.dfy`) covers the edits themselves, as functions on sequences. `InsertedAt` models `String::insert`. `RemovedAt` models `String::remove` and `Vec::remove`. `Merged` is the list a line join leaves behind, and `RemoveThenAppend` shows that the source's `Vec::remove` followed by `push_str` produces it. The module proves that inserting and removing at the same place undo each other. For each edit, it also proves what the edit does to the saved text: inserting a character inserts it at the line's offset plus the column, and joining two lines removes exactly the line break between them.
- `Buffers` (`buffer.dfy`) holds the `Buffer` class, with the fields of the Rust struct. The read-only queries are functions. The edits are methods with `modifies this`. Each method's postcondition gives its result and the new `lines`, `file` and `modified` for every branch, error branches included. Each edit method also says what it does to the saved text, and that a buffer with at least one line still has at least one line afterwards.

Assumptions:

- Columns count characters, and a character stands for one byte. In other words, the text is ASCII. Rust's `String::len`, `insert` and `remove` work on byte offsets. On ASCII text, byte offsets and character positions are the same.
- The filesystem is not modelled. What a filesystem call would answer is passed in as a parameter: whether the path exists, the text a read returns (or `None` when the read fails), and whether creating the directories or writing the file succeeds. A save returns the write it performs as a `Write(path, content)` value.
- `Path::parent` is modelled with Unix path rules. A path has no parent when it is empty or consists only of `/` characters.

Where the code differs from what a caller would expect, the model follows the code:

- Loading an empty file gives zero lines, not one empty line. So "at least one line" is not an invariant of every buffer. It is a property that each edit preserves, and `delete_line` checks for the empty list.
- `join_with_previous_line` with an index at or past the line count aborts in `Vec::remove` instead of returning `InvalidLineIndex`. The model excludes that case with a precondition.
- `save` never clears `modified`. `save_as` clears it only when the target path did not exist before. Both are modelled as written.
- `save` with no file fails with `FileNotFound("No file path set")`. There is no separate "no destination" error.
- `insert_char` accepts `'\n'` like any other character, so a line can come to hold a line break. Saving and loading such a buffer then no longer gives back the same lines. The model keeps this: `Save` promises the read-back lines only when no line holds a break, and no edit claims to keep lines break-free.

## Model

| member | source | states |
|---|---|---|
| Text.Split | src/buffer.rs:29-32 | A text splits into at least one segment, and no segment holds a line break. |
| Text.Lines | src/buffer.rs:29-32 | A loaded text gives no lines exactly when it is empty, and no loaded line holds a line break. |
| Text.SplitJoin | src/buffer.rs:126 | Splitting the saved text of one or more break-free lines gives those lines back. |
| Text.JoinSplit | src/buffer.rs:29-32 | Joining the segments of any text with `'\n'` gives the text back. |
| Text.LinesJoin | src/buffer.rs:29-32 | Saving break-free lines and loading them again gives the same lines, except that an empty last line is lost. |
| Text.JoinLines | src/buffer.rs:126 | Loading a text and saving it again gives the text back, except for a trailing line break, which is dropped. |
| Text.JoinAround | src/buffer.rs:126 | The saved text is the text before line `i`, then line `i`, then the text after it. |
| Text.Offset | src/buffer.rs:126 | A line's offset plus its length stays within the saved text, every line but the first starts after at least one character, and every line but the last ends before the text does. |
| Text.OffsetLocatesLine | src/buffer.rs:126 | Line `i` appears in the saved text at its offset, with a line break just before it unless it is the first line and just after it unless it is the last. |
| Edits.InsertedAt | src/buffer.rs:59 | Inserting adds exactly one element. |
| Edits.InsertedAtElements | src/buffer.rs:59 | Inserting at `i` puts `x` at `i`, keeps the elements before `i` in place, and moves those from `i` on one place right. |
| Edits.RemovedAt | src/buffer.rs:71 | Removing drops exactly one element. |
| Edits.RemovedAtElements | src/buffer.rs:71 | Removing at `i` keeps the elements before `i` in place and moves those after `i` one place left. |
| Edits.Merged | src/buffer.rs:93-98 | A line join shortens the list by one. |
| Edits.RemoveThenAppend | src/buffer.rs:93-98 | Removing line `i` and then appending it to line `i - 1`, in the source's order, gives the list with the two lines concatenated at `i - 1` and every other line in order. |
| Edits.RemoveInserted | src/buffer.rs:53-75 | Removing at the position just inserted at restores the sequence. |
| Edits.InsertRemoved | src/buffer.rs:53-75 | Putting the removed element back where it was restores the sequence. |
| Edits.InsertInText | src/buffer.rs:59 | Inserting a character at (line, column) inserts it into the saved text at the line's offset plus the column. |
| Edits.RemoveInText | src/buffer.rs:71 | The character at (line, column) is the saved text's character at the line's offset plus the column, and removing it removes exactly that character from the saved text. |
| Edits.MergeInText | src/buffer.rs:93-97 | Joining line `i` onto line `i - 1` removes from the saved text exactly the line break in front of line `i`. |
| Edits.DeleteInText | src/buffer.rs:117 | Removing a line from a list of several removes it from the saved text, along with the break after it, or the break before it when it is the last line. |
| Buffers.Buffer.constructor | src/buffer.rs:36 | A new buffer has the given file and lines and is not modified. |
| Buffers.Buffer.FromFile | src/buffer.rs:23-37 | With no file, the buffer has one empty line. A missing path fails with `FileNotFound(path)`, and a failed read fails with `IoError`. Otherwise the lines are the loaded lines of the file's text. In every successful case `modified` is false. |
| Buffers.Buffer.Len | src/buffer.rs:39-41 | Returns the number of lines. |
| Buffers.Buffer.GetLine | src/buffer.rs:43-46 | Succeeds exactly when `index < len` and returns line `index`. Otherwise it fails with `InvalidLineIndex(index)`. |
| Buffers.Buffer.LineLength | src/buffer.rs:77-79 | Succeeds exactly when `GetLine` does and returns that line's length. Otherwise it fails with `InvalidLineIndex(index)`. |
| Buffers.Buffer.DisplayName | src/buffer.rs:81-86 | Returns the path when there is one. The result is `"[No Name]"` exactly when there is no file or the path is itself that text. |
| Buffers.Buffer.InsertChar | src/buffer.rs:53-63 | Succeeds exactly when `line < len` and `col <= |line|`. A bad line gives `InvalidLineIndex(line)`; otherwise a bad column gives `InvalidColumnIndex(col, line)`. On success, only that line changes, `c` is inserted at `col`, `modified` becomes true, and the saved text gains `c` at the matching offset. On error, nothing changes. |
| Buffers.Buffer.RemoveChar | src/buffer.rs:65-75 | Succeeds exactly when `line < len` and `col < |line|`. It returns the removed character and removes it from the line and from the saved text, and sets `modified`. The two errors are as for insertion, and on error nothing changes. |
| Buffers.Buffer.JoinWithPreviousLine | src/buffer.rs:88-102 | Index 0 fails with `InvalidLineIndex(0)` and changes nothing. An index `0 < i < len` returns the old length of line `i - 1` and sets `modified`. The lines become `old[..i-1] + [old[i-1] + old[i]] + old[i+1..]`, and the saved text loses exactly one line break. A non-empty buffer stays non-empty. |
| Buffers.Buffer.DeleteLine | src/buffer.rs:104-120 | An empty list fails with `InvalidLineIndex(index)`. One line is cleared to `""` for any index, and the call succeeds. With more lines, an index in range removes exactly that line and an index out of range fails with no change. Every success sets `modified`. A non-empty buffer stays non-empty. |
| Buffers.Buffer.Save | src/buffer.rs:122-129 | Succeeds exactly when the buffer has a file and the write goes through. With no file, it fails with `FileNotFound("No file path set")`. A failed write gives `IoError`. A success writes the joined lines to the file's path. Reading back what it writes gives the same lines when they are break-free and the last one is not empty. The buffer is not changed. |
| Buffers.Buffer.SaveAs | src/buffer.rs:131-147 | Never changes `lines`. A success writes the joined lines to `path` and makes `path` the file. It clears `modified` only when the path did not exist before. A path with no parent fails with `FileNotFound("Invalid path")`, and a failed directory creation or write gives `IoError`. A failure changes nothing. |
| Buffers.InsertThenRemove | src/buffer.rs:53-75 | Inserting `c` at a valid position and then removing at the same position returns `c` and restores the lines exactly. |

## Left out

- `get_line_mut` (src/buffer.rs:48-51) hands out a mutable reference, which the model does not have. Its only check is the index check of `GetLine`, and `InsertChar` and `RemoveChar` make that check through `GetLine`.
- Multi-byte characters: `String::len`, `insert` and `remove` work on bytes and abort off a character boundary. The model counts characters and assumes one byte per character, so these aborts do not arise.
- Rust's `str::lines` also drops a `'\r'` just before each `'\n'`. `Lines` treats `'\r'` as an ordinary character.
- Buffers.Buffer.JoinWithPreviousLine: an index at or past the line count makes the source abort. The model has a precondition in place of that abort.
- Filesystem effects (`Path::exists`, `read_to_string`, `fs::write`, `create_dir_all`) are I/O. Their outcomes are parameters, and the write is returned as a value. The directory that `create_dir_all` may create before a failed write is not tracked.
- The `io::Error` payload and the display strings of `BufferError` are library formatting. `IoError` carries no payload.
- Integer width: indices are unbounded naturals rather than `usize`. The source does no index arithmetic that could overflow: its only subtraction, `line_index - 1`, runs after a check for zero.
