/**
 * The text of one document as an editor holds it in memory: an ordered
 * list of lines, the path it is saved to (if any) and a flag that says
 * whether it was edited.  Every edit checks its line and column first and
 * leaves the buffer as it was when a check fails.
 *
 * The filesystem is outside the model: what a filesystem call would answer
 * (whether a path exists, what a read returns, whether creating a
 * directory or writing a file succeeds) is passed in as a parameter, and
 * a save hands back the write it performs as a `Write` value.
 */
module Buffers {
  import opened Text
  import opened Edits

  datatype Option<T> = None | Some(value: T)

  /** The ways a buffer operation can fail. */
  datatype BufferError =
    | FileNotFound(message: string)
    | IoError
    | InvalidLineIndex(index: nat)
    | InvalidColumnIndex(col: nat, line: nat)

  datatype Result<T> = Ok(value: T) | Err(error: BufferError)

  /** One whole-file write: `content` replaces what is at `path`. */
  datatype Write = Write(path: string, content: string)

  /** What `display_name` shows for a buffer with no file. */
  const NoName: string := "[No Name]"

  /** True when `path` names something that has a parent directory: an
      empty path and a path made only of '/' (the root) have none. */
  predicate HasParent(path: string) {
    exists k :: 0 <= k < |path| && path[k] != '/'
  }

  class Buffer {
    var file: Option<string>
    var lines: seq<string>
    var modified: bool

    /** The structural invariant the edits keep: there is at least one line. */
    predicate NonEmpty()
      reads this
    {
      |lines| >= 1
    }

    /** A buffer that has just been read or created, not yet edited. */
    constructor (file: Option<string>, lines: seq<string>)
      ensures this.file == file && this.lines == lines && !modified
    {
      this.file := file;
      this.lines := lines;
      modified := false;
    }

    /** Opens `file`, or an unnamed buffer of one empty line when there is
        none.  `pathExists` says whether the path exists and `read` is what
        reading it gives (`None` when the read fails). */
    static method FromFile(file: Option<string>, pathExists: bool, read: Option<string>)
      returns (r: Result<Buffer>)
      ensures file.None? ==>
        r.Ok? && fresh(r.value) && r.value.lines == [[]] && r.value.file == None && !r.value.modified
      ensures file.Some? && !pathExists ==> r == Err(FileNotFound(file.value))
      ensures file.Some? && pathExists && read.None? ==> r == Err(IoError)
      ensures file.Some? && pathExists && read.Some? ==>
        r.Ok? && fresh(r.value) && r.value.lines == Lines(read.value) && r.value.file == file && !r.value.modified
    {
      var ls: seq<string>;
      match file {
        case Some(path) =>
          if !pathExists {
            return Err(FileNotFound(path));
          }
          if read.None? {
            return Err(IoError);
          }
          ls := Lines(read.value);
        case None =>
          ls := [[]];
      }
      var b := new Buffer(file, ls);
      r := Ok(b);
    }

    /** The number of lines. */
    function Len(): (n: nat)
      reads this
      ensures n == |lines|
    {
      |lines|
    }

    /** Line `index`, or `InvalidLineIndex` past the last line. */
    function GetLine(index: nat): (r: Result<string>)
      reads this
      ensures r.Ok? <==> index < Len()
      ensures r.Ok? ==> r.value == lines[index]
      ensures r.Err? ==> r.error == InvalidLineIndex(index)
    {
      if index < |lines| then Ok(lines[index]) else Err(InvalidLineIndex(index))
    }

    /** The length of line `index` in characters (one byte each). */
    function LineLength(index: nat): (r: Result<nat>)
      reads this
      ensures r.Ok? <==> GetLine(index).Ok?
      ensures r.Ok? ==> r.value == |GetLine(index).value|
      ensures r.Err? ==> r.error == InvalidLineIndex(index)
    {
      match GetLine(index)
      case Ok(line) => Ok(|line|)
      case Err(e) => Err(e)
    }

    /** The file's path, or the placeholder for a buffer with no file. */
    function DisplayName(): (r: string)
      reads this
      ensures file.Some? ==> r == file.value
      ensures r == NoName <==> file.None? || file.value == NoName
    {
      match file
      case Some(path) => path
      case None => NoName
    }

    /** Puts `c` before column `col` of line `line`; `col` may be the line's
        length, which appends. */
    method InsertChar(line: nat, col: nat, c: char) returns (r: Result<()>)
      modifies this
      ensures file == old(file)
      ensures r.Ok? <==> line < |old(lines)| && col <= |old(lines)[line]|
      ensures line >= |old(lines)| ==> r == Err(InvalidLineIndex(line))
      ensures line < |old(lines)| && col > |old(lines)[line]| ==> r == Err(InvalidColumnIndex(col, line))
      ensures r.Ok? ==> lines == old(lines)[line := InsertedAt(old(lines)[line], col, c)] && modified
      ensures r.Err? ==> lines == old(lines) && modified == old(modified)
      ensures |lines| == |old(lines)| && (old(NonEmpty()) ==> NonEmpty())
      ensures r.Ok? ==> Join(lines) == InsertedAt(Join(old(lines)), Offset(old(lines), line) + col, c)
    {
      var current := GetLine(line);
      if current.Err? {
        return Err(current.error);
      }
      if col > |current.value| {
        return Err(InvalidColumnIndex(col, line));
      }
      InsertInText(lines, line, col, c);
      lines := lines[line := InsertedAt(current.value, col, c)];
      modified := true;
      r := Ok(());
    }

    /** Takes out and returns the character at column `col` of line `line`;
        there is none at the line's length. */
    method RemoveChar(line: nat, col: nat) returns (r: Result<char>)
      modifies this
      ensures file == old(file)
      ensures r.Ok? <==> line < |old(lines)| && col < |old(lines)[line]|
      ensures line >= |old(lines)| ==> r == Err(InvalidLineIndex(line))
      ensures line < |old(lines)| && col >= |old(lines)[line]| ==> r == Err(InvalidColumnIndex(col, line))
      ensures r.Ok? ==>
        r.value == old(lines)[line][col] &&
        lines == old(lines)[line := RemovedAt(old(lines)[line], col)] && modified
      ensures r.Err? ==> lines == old(lines) && modified == old(modified)
      ensures |lines| == |old(lines)| && (old(NonEmpty()) ==> NonEmpty())
      ensures r.Ok? ==>
        r.value == Join(old(lines))[Offset(old(lines), line) + col] &&
        Join(lines) == RemovedAt(Join(old(lines)), Offset(old(lines), line) + col)
    {
      var current := GetLine(line);
      if current.Err? {
        return Err(current.error);
      }
      if col >= |current.value| {
        return Err(InvalidColumnIndex(col, line));
      }
      RemoveInText(lines, line, col);
      var removed := current.value[col];
      lines := lines[line := RemovedAt(current.value, col)];
      modified := true;
      r := Ok(removed);
    }

    /** Appends line `lineIndex` to the line before it and removes it,
        returning where the two now meet: the earlier line's old length.
        An index past the last line is a caller error (the list removal
        would abort), so it is excluded here. */
    method JoinWithPreviousLine(lineIndex: nat) returns (r: Result<nat>)
      requires lineIndex == 0 || lineIndex < |lines|
      modifies this
      ensures file == old(file)
      ensures lineIndex == 0 ==>
        r == Err(InvalidLineIndex(0)) && lines == old(lines) && modified == old(modified)
      ensures lineIndex > 0 ==>
        r == Ok(|old(lines)[lineIndex - 1]|) && lines == Merged(old(lines), lineIndex) && modified
      ensures lineIndex > 0 ==> Join(lines) == RemovedAt(Join(old(lines)), Offset(old(lines), lineIndex) - 1)
      ensures old(NonEmpty()) ==> NonEmpty()
    {
      if lineIndex == 0 {
        return Err(InvalidLineIndex(lineIndex));
      }
      MergeInText(lines, lineIndex);
      RemoveThenAppend(lines, lineIndex);
      var current := lines[lineIndex];
      lines := RemovedAt(lines, lineIndex);
      // The line before `lineIndex` is still there, so this lookup cannot fail.
      var previous := lines[lineIndex - 1];
      lines := lines[lineIndex - 1 := previous + current];
      modified := true;
      r := Ok(|previous|);
    }

    /** Removes line `index`; a buffer of one line keeps that line and
        empties it instead, whatever `index` is. */
    method DeleteLine(index: nat) returns (r: Result<()>)
      modifies this
      ensures file == old(file)
      ensures |old(lines)| == 0 ==>
        r == Err(InvalidLineIndex(index)) && lines == old(lines) && modified == old(modified)
      ensures |old(lines)| == 1 ==> r == Ok(()) && lines == [[]] && modified
      ensures |old(lines)| > 1 && index >= |old(lines)| ==>
        r == Err(InvalidLineIndex(index)) && lines == old(lines) && modified == old(modified)
      ensures |old(lines)| > 1 && index < |old(lines)| ==>
        r == Ok(()) && lines == RemovedAt(old(lines), index) && modified
      ensures |old(lines)| > 1 && index < |old(lines)| - 1 ==>
        Join(lines) == Join(old(lines))[..Offset(old(lines), index)]
                       + Join(old(lines))[Offset(old(lines), index) + |old(lines)[index]| + 1..]
      ensures |old(lines)| > 1 && index == |old(lines)| - 1 ==>
        Join(lines) == Join(old(lines))[..Offset(old(lines), index) - 1]
      ensures old(NonEmpty()) ==> NonEmpty()
    {
      if |lines| == 0 {
        return Err(InvalidLineIndex(index));
      }
      if |lines| == 1 {
        lines := lines[0 := []];
        modified := true;
        return Ok(());
      }
      if index >= |lines| {
        return Err(InvalidLineIndex(index));
      }
      DeleteInText(lines, index);
      lines := RemovedAt(lines, index);
      modified := true;
      r := Ok(());
    }

    /** Writes the lines, joined by '\n', to the buffer's file;
        `writeSucceeds` is whether the write goes through.  Leaves the
        buffer, its modified flag included, as it is. */
    function Save(writeSucceeds: bool): (r: Result<Write>)
      reads this
      ensures file.None? ==> r == Err(FileNotFound("No file path set"))
      ensures file.Some? && !writeSucceeds ==> r == Err(IoError)
      ensures r.Ok? <==> file.Some? && writeSucceeds
      ensures r.Ok? ==> r.value.path == file.value && r.value.content == Join(lines)
      ensures r.Ok? && AllNoBreak(lines) && |lines| >= 1 && lines[|lines| - 1] != [] ==>
        Lines(r.value.content) == lines
    {
      match file
      case None => Err(FileNotFound("No file path set"))
      case Some(path) =>
        if !writeSucceeds then Err(IoError)
        else
          var content := Join(lines);
          assert AllNoBreak(lines) && |lines| >= 1 && lines[|lines| - 1] != [] ==> Lines(content) == lines by {
            if AllNoBreak(lines) {
              LinesJoin(lines);
            }
          }
          Ok(Write(path, content))
    }

    /** Writes the lines to `path` and makes it the buffer's file.  When
        `path` does not exist yet its parent directories are made first
        (`createSucceeds` is whether that works), and only on that branch
        is the modified flag cleared. */
    method SaveAs(path: string, pathExists: bool, createSucceeds: bool, writeSucceeds: bool)
      returns (r: Result<Write>)
      modifies this
      ensures lines == old(lines)
      ensures r.Ok? ==> r.value == Write(path, Join(lines)) && file == Some(path)
      ensures r.Err? ==> file == old(file) && modified == old(modified)
      ensures pathExists ==>
        (r.Ok? <==> writeSucceeds) && modified == old(modified)
      ensures pathExists && !writeSucceeds ==> r == Err(IoError)
      ensures !pathExists && !HasParent(path) ==> r == Err(FileNotFound("Invalid path"))
      ensures !pathExists && HasParent(path) ==>
        (r.Ok? <==> createSucceeds && writeSucceeds)
      ensures !pathExists && HasParent(path) && !(createSucceeds && writeSucceeds) ==> r == Err(IoError)
      ensures !pathExists && r.Ok? ==> !modified
    {
      var content := Join(lines);
      if pathExists {
        if !writeSucceeds {
          return Err(IoError);
        }
        file := Some(path);
        r := Ok(Write(path, content));
      } else {
        if !HasParent(path) {
          return Err(FileNotFound("Invalid path"));
        }
        if !createSucceeds {
          return Err(IoError);
        }
        if !writeSucceeds {
          return Err(IoError);
        }
        file := Some(path);
        modified := false;
        r := Ok(Write(path, content));
      }
    }
  }

  /** Inserting a character and then removing it at the same place gives
      the character back and leaves the lines exactly as they were. */
  method InsertThenRemove(b: Buffer, line: nat, col: nat, c: char) returns (removed: Result<char>)
    requires line < |b.lines| && col <= |b.lines[line]|
    modifies b
    ensures removed == Ok(c)
    ensures b.lines == old(b.lines) && b.file == old(b.file) && b.modified
  {
    var inserted := b.InsertChar(line, col, c);
    removed := b.RemoveChar(line, col);
    RemoveInserted(old(b.lines)[line], col, c);
    assert b.lines == old(b.lines)[line := old(b.lines)[line]];
  }

  /** The walk-throughs a user of the buffer relies on. */
  method Walkthroughs()
  {
    var made := Buffer.FromFile(None, false, None);
    var b := made.value;
    assert b.Len() == 1 && b.GetLine(0) == Ok("") && !b.modified;
    assert b.DisplayName() == NoName;
    var r := b.InsertChar(0, 0, 'a');
    assert InsertedAt("", 0, 'a') == "a";
    assert b.lines == ["a"] && b.modified;
    r := b.InsertChar(0, 2, 'b');
    assert r == Err(InvalidColumnIndex(2, 0));
    var c := b.RemoveChar(0, 1);
    assert c == Err(InvalidColumnIndex(1, 0));

    var two := new Buffer(Some("notes.txt"), ["ab", "cd"]);
    var at := two.JoinWithPreviousLine(1);
    assert |two.lines| == 1 && two.lines[0] == "ab" + "cd" == "abcd";
    assert at == Ok(2) && two.lines == ["abcd"];
    at := two.JoinWithPreviousLine(0);
    assert at == Err(InvalidLineIndex(0));

    var one := new Buffer(None, ["hello"]);
    var d := one.DeleteLine(0);
    assert one.lines == [""] && one.Len() == 1;
    d := one.DeleteLine(7);
    assert d == Ok(()) && one.lines == [""];
  }
}
