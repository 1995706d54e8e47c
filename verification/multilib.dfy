/** `enable_multilib`: uncomment the `[multilib]` section header of pacman.conf and the
    line after it. The file is read with `readlines`, edited in memory and written back with
    `writelines`; when an exception escapes the edit, nothing is written back. */
module Multilib {
  import opened Wrappers
  import opened Seqs
  import opened Text

  /** What the header line reads once uncommented. */
  const Header: string := "[multilib]\n"

  /** The line `list.index` searches for: `#[multilib]` and a newline. */
  const CommentedHeader: string := "#" + Header

  datatype MultilibError =
    | HeaderNotFound     // `content.index(...)` raises ValueError
    | NoLineAfterHeader  // the header is the last line: `content[line_number]` raises IndexError

  /** `out` is `lines` with every `#` deleted from lines `h` and `h + 1` and nothing else changed. */
  predicate UncommentedAt(lines: seq<string>, out: seq<string>, h: nat) {
    && h + 1 < |lines|
    && |out| == |lines|
    && out[h] == DeleteAll(lines[h], '#')
    && out[h + 1] == DeleteAll(lines[h + 1], '#')
    && forall j :: 0 <= j < |lines| && j != h && j != h + 1 ==> out[j] == lines[j]
  }

  /** Lines `h` and `h + 1` of `lines` with their `#` characters deleted. */
  function UncommentPair(lines: seq<string>, h: nat): (out: seq<string>)
    requires h + 1 < |lines|
    ensures UncommentedAt(lines, out, h)
  {
    lines[h := DeleteAll(lines[h], '#')][h + 1 := DeleteAll(lines[h + 1], '#')]
  }

  /** The in-memory edit of `enable_multilib` on the lines of pacman.conf. */
  function EnableMultilib(lines: seq<string>): Result<seq<string>, MultilibError> {
    UncommentAfter(lines, CommentedHeader)
  }

  /** Uncomment the first line equal to `header` and the line after it. */
  function UncommentAfter(lines: seq<string>, header: string): (r: Result<seq<string>, MultilibError>)
    ensures r == Err(HeaderNotFound) <==> header !in lines
    ensures r == Err(NoLineAfterHeader) <==>
              header in lines && lines[|lines| - 1] == header && header !in lines[..|lines| - 1]
    ensures r.Ok? ==>
              exists h :: 0 <= h < |lines| && lines[h] == header
                          && header !in lines[..h] && UncommentedAt(lines, r.value, h)
  {
    match FirstIndex(lines, header)
    case None => Err(HeaderNotFound)
    case Some(h) =>
      if h + 1 == |lines| then
        assert lines[..|lines| - 1] == lines[..h];
        Err(NoLineAfterHeader)
      else
        HeaderBeforeLastLine(lines, header, h);
        Ok(UncommentPair(lines, h))
  }

  /** A header with a successor is not the last line, and it lies in all but the last line. */
  lemma HeaderBeforeLastLine(lines: seq<string>, header: string, h: nat)
    requires h + 1 < |lines| && lines[h] == header
    ensures header in lines[..|lines| - 1]
  {
    assert lines[..|lines| - 1][h] == header;
  }

  /** Deleting every `#` from the commented header leaves the section header `[multilib]`. */
  lemma UncommentedHeader()
    ensures DeleteAll(CommentedHeader, '#') == Header
  {
    assert '#' !in Header;
    DeleteAllAppend("#", Header, '#');
  }

  /** When the first commented header is not the last line, the edit succeeds and that
      line afterwards reads `[multilib]`. */
  lemma HeaderIsUncommented(lines: seq<string>, h: nat)
    requires h + 1 < |lines| && lines[h] == CommentedHeader && CommentedHeader !in lines[..h]
    ensures EnableMultilib(lines) == Ok(UncommentPair(lines, h))
    ensures EnableMultilib(lines).value[h] == Header
  {
    FirstIndexIs(lines, CommentedHeader, h);
    UncommentedHeader();
  }

  /** Writing back the edited lines changes only the text of the header line and the line
      after it. */
  lemma FlattenUncommented(lines: seq<string>, h: nat)
    requires h + 1 < |lines| && lines[h] == CommentedHeader
    ensures Flatten(lines) == Flatten(lines[..h]) + CommentedHeader + lines[h + 1] + Flatten(lines[h + 2..])
    ensures Flatten(UncommentPair(lines, h))
            == Flatten(lines[..h]) + Header + DeleteAll(lines[h + 1], '#') + Flatten(lines[h + 2..])
  {
    UncommentedHeader();
    var out := UncommentPair(lines, h);
    FlattenAroundPair(lines, h);
    FlattenAroundPair(out, h);
    assert out[..h] == lines[..h];
    assert out[h + 2..] == lines[h + 2..];
  }

  /** `out` is the file `content` with the first commented header, on line `h`, and the line
      after it uncommented; all other text is unchanged. */
  predicate TextEditedAt(content: string, out: string, h: nat) {
    var lines := ReadLines(content);
    && h + 1 < |lines| && lines[h] == CommentedHeader && CommentedHeader !in lines[..h]
    && content == Flatten(lines[..h]) + CommentedHeader + lines[h + 1] + Flatten(lines[h + 2..])
    && out == Flatten(lines[..h]) + Header + DeleteAll(lines[h + 1], '#') + Flatten(lines[h + 2..])
  }

  /** The file-level operation: read the lines, edit them, write them back. The file is
      rewritten only when the edit succeeds, and then only the header line and the line after
      it change. */
  function EnableMultilibText(content: string): (r: Result<string, MultilibError>)
    ensures r.Err? <==> EnableMultilib(ReadLines(content)).Err?
    ensures r.Err? ==> r.error == EnableMultilib(ReadLines(content)).error
    ensures r.Ok? ==> exists h :: TextEditedAt(content, r.value, h)
  {
    var lines := ReadLines(content);
    match EnableMultilib(lines)
    case Err(e) => Err(e)
    case Ok(out) =>
      var h := FirstIndex(lines, CommentedHeader).value;
      FlattenUncommented(lines, h);
      assert TextEditedAt(content, Flatten(out), h);
      Ok(Flatten(out))
  }

  /** Conversely, whenever the first commented header has a successor, the file is rewritten,
      and exactly as described. */
  lemma MultilibTextEdit(content: string, h: nat)
    requires var lines := ReadLines(content);
      h + 1 < |lines| && lines[h] == CommentedHeader && CommentedHeader !in lines[..h]
    ensures EnableMultilibText(content).Ok?
    ensures TextEditedAt(content, EnableMultilibText(content).value, h)
  {
    var lines := ReadLines(content);
    HeaderIsUncommented(lines, h);
    FlattenUncommented(lines, h);
  }
}
