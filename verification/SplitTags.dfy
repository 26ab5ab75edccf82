/**
 * The splitter run on tagged runes: a tag says which rune of the message a rune is, or whether it was put in.
 */
module SplitTags {
  import opened Text
  import opened SplitScan
  import opened Splitter

  /** Rune i of the message itself, a copy of it in a reopened header, the newline after one, or a closing fence. */
  datatype Source = Input(index: nat) | Copy(index: nat) | Separator | Closing

  datatype Cell = Cell(ch: char, src: Source)

  datatype TaggedState = TaggedState(rest: seq<Cell>, sent: seq<seq<Cell>>)

  const CLOSER_CELLS: seq<Cell> :=
    [Cell('\n', Closing), Cell('`', Closing), Cell('`', Closing), Cell('`', Closing)]

  function Runes(cells: seq<Cell>): (s: string)
    ensures |s| == |cells| && forall i {:trigger s[i]} :: 0 <= i < |s| ==> s[i] == cells[i].ch
  {
    seq(|cells|, i requires 0 <= i < |cells| => cells[i].ch)
  }

  function Tagged(content: string): (cells: seq<Cell>)
    ensures Runes(cells) == content
  {
    seq(|content|, i requires 0 <= i < |content| => Cell(content[i], Input(i)))
  }

  function CopyOf(c: Cell): Cell {
    if c.src.Input? then Cell(c.ch, Copy(c.src.index)) else c
  }

  function Copies(cells: seq<Cell>): (r: seq<Cell>)
    ensures |r| == |cells| && forall i {:trigger r[i]} :: 0 <= i < |r| ==> r[i] == CopyOf(cells[i])
  {
    seq(|cells|, i requires 0 <= i < |cells| => CopyOf(cells[i]))
  }

  function TaggedChunk(rest: seq<Cell>, c: Cut): seq<Cell>
    requires c.end <= |rest|
  {
    if c.Plain? then rest[..c.end] else rest[..Kept(Runes(rest[..c.end]), IsBlank)] + CLOSER_CELLS
  }

  function Reopened(rest: seq<Cell>, c: Cut): seq<Cell>
    requires c.Fenced? && c.end <= |rest| && c.open + c.header <= |rest|
  {
    Copies(rest[c.open..c.open + c.header]) + [Cell('\n', Separator)] + rest[c.end..]
  }

  function TaggedRest(rest: seq<Cell>, c: Cut): seq<Cell>
    requires c.end <= |rest| && (c.Fenced? ==> c.open + c.header <= |rest|)
  {
    if c.Plain? then rest[c.end..][Leading(Runes(rest[c.end..]), IsBlank)..]
    else var x := Reopened(rest, c); x[..Kept(Runes(x), IsSpace)]
  }

  function TaggedNext(st: TaggedState, maxLen: nat): TaggedState
    requires 0 < maxLen && st.rest != []
  {
    if |st.rest| <= maxLen then TaggedState([], st.sent + [st.rest])
    else
      var c := ChooseCut(Runes(st.rest), maxLen);
      TaggedState(TaggedRest(st.rest, c), st.sent + [TaggedChunk(st.rest, c)])
  }

  function Untagged(sent: seq<seq<Cell>>): (r: seq<string>)
    ensures |r| == |sent| && forall i {:trigger r[i]} :: 0 <= i < |r| ==> r[i] == Runes(sent[i])
  {
    seq(|sent|, i requires 0 <= i < |sent| => Runes(sent[i]))
  }

  lemma UntaggedChunk(rest: seq<Cell>, c: Cut)
    requires c.end <= |rest|
    ensures Runes(TaggedChunk(rest, c)) == ChunkAt(Runes(rest), c)
  {
    assert Runes(rest[..c.end]) == Runes(rest)[..c.end];
  }

  lemma UntaggedRest(rest: seq<Cell>, c: Cut)
    requires c.end <= |rest|
    requires c.Fenced? ==> 0 < c.header && c.open + c.header <= |rest| && rest[c.open].ch == '`'
    ensures Runes(TaggedRest(rest, c)) == RestAfter(Runes(rest), c)
  {
    assert Runes(rest[c.end..]) == Runes(rest)[c.end..];
    if c.Plain? {
      hide Leading;
    } else {
      UntaggedReopened(rest, c);
      hide Kept, Reopened;
    }
  }

  lemma UntaggedReopened(rest: seq<Cell>, c: Cut)
    requires c.Fenced? && c.end <= |rest|
    requires 0 < c.header && c.open + c.header <= |rest| && rest[c.open].ch == '`'
    ensures var x := Runes(Reopened(rest, c));
            && x == Runes(rest)[c.open..c.open + c.header] + "\n" + Runes(rest)[c.end..]
            && TrimSpace(x) == x[..Kept(x, IsSpace)]
  {
    var x := Reopened(rest, c);
    hide Kept;
    assert x[0] == CopyOf(rest[c.open]);
    TrimSpaceFromInk(Runes(x));
  }

  /** The tags do not change what the splitter does. */
  lemma TaggedNextIsNext(st: TaggedState, maxLen: nat)
    requires 0 < maxLen && st.rest != []
    ensures var next := TaggedNext(st, maxLen);
            State(Runes(next.rest), Untagged(next.sent))
            == Next(State(Runes(st.rest), Untagged(st.sent)), maxLen)
  {
    var next := TaggedNext(st, maxLen);
    if maxLen < |st.rest| {
      var c := ChooseCut(Runes(st.rest), maxLen);
      hide ChooseCut, RestAfter, ChunkAt, TaggedRest, TaggedChunk;
      UntaggedChunk(st.rest, c);
      UntaggedRest(st.rest, c);
    }
    assert Untagged(next.sent) == Untagged(st.sent) + [Runes(next.sent[|st.sent|])];
  }
}
