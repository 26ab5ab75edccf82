/** What the splitter puts in, and where: closing fences, copies of fence lines, and a newline behind each copy. */
module SplitPutIn {
  import opened Text
  import opened SplitScan
  import opened Splitter
  import opened SplitTags

  /** What a tag promises about its rune. A copied rune stands on a fence line of the message. */
  ghost predicate Genuine(content: string, c: Cell) {
    match c.src
    case Input(i) => i < |content| && c.ch == content[i]
    case Copy(i) => i < |content| && c.ch == content[i] && OnFenceLine(content, i)
    case Separator => c.ch == '\n'
    case Closing => true
  }

  ghost predicate OnFenceLine(content: string, i: nat)
    requires i < |content|
  {
    exists u: nat :: u <= i && FenceAt(content, u) && forall k :: u <= k <= i ==> content[k] != '\n'
  }

  /** Behind rune i the line has nothing but white space, or the rune is the last of three backticks. */
  ghost predicate HeaderEnds(content: string, i: nat) {
    BlankBehind(content, i + 1) || FenceAt(content, i - 2)
  }

  ghost predicate BlankBehind(content: string, j: nat) {
    exists e: nat :: BlankUpTo(content, j, e)
  }

  /** White space from j to the end of the line at e. */
  ghost predicate BlankUpTo(content: string, j: nat, e: nat) {
    && j <= e <= |content| && (e < |content| ==> content[e] == '\n')
    && forall k :: j <= k < e ==> IsSpace(content[k])
  }

  /**
   * The runes of the message follow one another, and so do those of a copy, up to the end of the header; there a
   * separator stands, and it stands nowhere else.
   */
  ghost predicate Linked(content: string, rest: seq<Cell>) {
    forall p :: 0 <= p < |rest| - 1 ==> LinkedAt(content, rest, p)
  }

  ghost predicate LinkedAt(content: string, rest: seq<Cell>, p: nat)
    requires p < |rest| - 1
  {
    Neighbours(content, rest[p].src, rest[p + 1].src)
  }

  ghost predicate Neighbours(content: string, a: Source, b: Source) {
    match a
    case Input(i) => b == Input(i + 1)
    case Copy(i) => b == Copy(i + 1) || (b.Separator? && HeaderEnds(content, i))
    case Separator => true
    case Closing => false
  }

  ghost predicate RestWell(content: string, rest: seq<Cell>) {
    && Linked(content, rest)
    && forall i :: 0 <= i < |rest| ==> Genuine(content, rest[i]) && !rest[i].src.Closing?
  }

  /** One stretch of the message: neighbouring runes, all its own or all copied. */
  ghost predicate IsStretch(cells: seq<Cell>) {
    && cells != [] && (cells[0].src.Input? || cells[0].src.Copy?)
    && forall i :: 0 <= i < |cells| ==> cells[i].src == Shift(cells[0].src, i)
  }

  function Shift(s: Source, n: nat): Source
    requires s.Input? || s.Copy?
  {
    if s.Input? then Input(s.index + n) else Copy(s.index + n)
  }

  // Where copies start

  /** A copy starts at p: the rune in front is not its neighbour. */
  predicate StartsCopy(cells: seq<Cell>, p: nat)
    requires p < |cells|
  {
    && cells[p].src.Copy?
    && !(0 < p && cells[p - 1].src.Copy? && cells[p - 1].src.index + 1 == cells[p].src.index)
  }

  /** The first n runes of a chunk are its body; behind them stands nothing, or an injected closing fence. */
  ghost predicate BodyOf(chunk: seq<Cell>, n: nat) {
    n <= |chunk| && (n == |chunk| || chunk[n..] == CLOSER_CELLS)
  }

  ghost predicate Closed(chunk: seq<Cell>) {
    4 <= |chunk| && chunk[|chunk| - 4..] == CLOSER_CELLS
  }

  /** A chunk was cut inside a copy, with nothing but white space between its last rune and rune j of the message. */
  ghost predicate EndsBefore(content: string, chunk: seq<Cell>, j: nat) {
    exists n: nat :: EndsAtBefore(content, chunk, n, j)
  }

  ghost predicate EndsAtBefore(content: string, chunk: seq<Cell>, n: nat, j: nat) {
    && BodyOf(chunk, n) && 0 < n && chunk[n - 1].src.Copy? && chunk[n - 1].src.index < j <= |content|
    && forall k :: chunk[n - 1].src.index < k < j ==> IsSpace(content[k])
  }

  ghost predicate Continues(content: string, sent: seq<seq<Cell>>, j: nat) {
    exists m :: 0 <= m < |sent| && EndsBefore(content, sent[m], j)
  }

  /**
   * Where a copy may start: at the front of a chunk, behind one that was closed, with a fence of the message; or
   * anywhere, if it goes on with a copy that was cut at the end of an earlier chunk.
   */
  ghost predicate StartOk(content: string, sent: seq<seq<Cell>>, p: nat, j: nat) {
    || (p == 0 && FenceAt(content, j) && sent != [] && Closed(sent[|sent| - 1]))
    || Continues(content, sent, j)
  }

  ghost predicate RunStarts(content: string, sent: seq<seq<Cell>>, cells: seq<Cell>) {
    forall p :: 0 <= p < |cells| && StartsCopy(cells, p) ==> StartOk(content, sent, p, cells[p].src.index)
  }

  /** A chunk behind the ones before it: its body, and perhaps a closing fence. */
  ghost predicate SentWell(content: string, before: seq<seq<Cell>>, chunk: seq<Cell>) {
    exists n: nat :: SentWellTo(content, before, chunk, n)
  }

  ghost predicate SentWellTo(content: string, before: seq<seq<Cell>>, chunk: seq<Cell>, n: nat) {
    BodyOf(chunk, n) && RestWell(content, chunk[..n]) && RunStarts(content, before, chunk[..n])
  }

  /** Starts with a copy of a fence of the message. */
  ghost predicate StartsReopened(content: string, cells: seq<Cell>) {
    cells != [] && cells[0].src.Copy? && FenceAt(content, cells[0].src.index)
  }

  lemma RestWellSlice(content: string, rest: seq<Cell>, i: nat, j: nat)
    requires i <= j <= |rest| && RestWell(content, rest)
    ensures RestWell(content, rest[i..j])
  {
    hide Genuine;
    forall p | 0 <= p < j - i - 1
      ensures LinkedAt(content, rest[i..j], p)
    {
      assert LinkedAt(content, rest, i + p);
    }
  }

  ghost predicate InLine(cells: seq<Cell>) {
    forall i :: 0 <= i < |cells| ==> cells[i].ch != '\n'
  }

  /** The runes of a header are neighbours in the message: it is one stretch of it. */
  lemma {:induction false} HeaderIsStretch(content: string, header: seq<Cell>, n: nat)
    requires 0 < n <= |header| && RestWell(content, header) && InLine(header)
    ensures IsStretch(header[..n])
    decreases n
  {
    assert Genuine(content, header[n - 1]);
    if 1 < n {
      HeaderIsStretch(content, header, n - 1);
      assert LinkedAt(content, header, n - 2);
      assert forall i :: 0 <= i < n - 1 ==> header[..n][i] == header[..n - 1][i];
    }
  }

  lemma CopyIsGenuine(content: string, header: seq<Cell>, i: nat)
    requires i < |header| && FenceAt(Runes(header), 0)
    requires RestWell(content, header) && InLine(header) && IsStretch(header)
    ensures Genuine(content, CopyOf(header[i])) && CopyOf(header[i]).src == Copy(header[0].src.index + i)
  {
    assert Genuine(content, header[i]);
    if header[0].src.Input? {
      var u := header[0].src.index;
      forall k | u <= k <= u + i
        ensures k < |content| && content[k] == header[k - u].ch
      {
        assert Genuine(content, header[k - u]);
      }
      assert Genuine(content, header[0]) && Genuine(content, header[1]) && Genuine(content, header[2]);
      assert FenceAt(content, u);
    }
  }

  lemma BlankCells(cells: seq<Cell>, i: nat, j: nat)
    requires i <= j <= |cells| && forall k :: i <= k < j ==> IsBlank(Runes(cells)[k]) || IsSpace(Runes(cells)[k])
    ensures forall k :: i <= k < j ==> IsSpace(cells[k].ch)
  {
    assert forall k :: i <= k < j ==> Runes(cells)[k] == cells[k].ch;
  }

  lemma LeadingCells(rest: seq<Cell>, end: nat)
    requires end <= |rest|
    ensures var k := Leading(Runes(rest[end..]), IsBlank);
            rest[end..][k..] == rest[end + k..] && forall i :: end <= i < end + k ==> IsSpace(rest[i].ch)
  {
    var after := rest[end..];
    var k := Leading(Runes(after), IsBlank);
    LeadingIs(Runes(after), IsBlank);
    BlankCells(after, 0, k);
    assert forall i :: end <= i < end + k ==> rest[i] == after[i - end];
  }

  lemma TrailingCells(rest: seq<Cell>, end: nat)
    requires end <= |rest|
    ensures var k := Kept(Runes(rest[..end]), IsBlank);
            rest[..end][..k] == rest[..k] && forall i :: k <= i < end ==> IsSpace(rest[i].ch)
  {
    var body := rest[..end];
    var k := Kept(Runes(body), IsBlank);
    KeptIs(Runes(body), IsBlank);
    BlankCells(body, k, end);
    assert forall i :: k <= i < end ==> rest[i] == body[i];
  }

  lemma RestCellsGenuine(content: string, rest: seq<Cell>)
    requires RestWell(content, rest)
    ensures forall i :: 0 <= i < |rest| ==> Genuine(content, rest[i])
  {
  }

  /** The runes of a header stand on one line, which starts with a fence. */
  lemma HeaderCells(rest: seq<Cell>, u: nat)
    requires FenceAt(Runes(rest), u)
    ensures var header := rest[u..u + HeaderLength(Runes(rest), u)]; InLine(header) && FenceAt(Runes(header), 0)
  {
    var h := HeaderLength(Runes(rest), u);
    HeaderInLine(Runes(rest), u);
    hide HeaderLength;
    var header := rest[u..u + h];
    assert forall i :: 0 <= i < h ==> header[i].ch == Runes(rest)[u + i];
  }

  /** Cells s up to p copy the message from rune u on. */
  ghost predicate CopiesFrom(content: string, cells: seq<Cell>, s: nat, p: nat, u: nat) {
    && s <= p < |cells| && u + (p - s) < |content|
    && forall i {:trigger cells[i]} :: s <= i <= p ==> cells[i] == Cell(content[u + (i - s)], Copy(u + (i - s)))
  }

  lemma CopiesFromMore(content: string, cells: seq<Cell>, s: nat, p: nat, u: nat)
    requires CopiesFrom(content, cells, s, p, u) && p + 1 < |cells| && u + (p + 1 - s) < |content|
    requires cells[p + 1] == Cell(content[u + (p + 1 - s)], Copy(u + (p + 1 - s)))
    ensures CopiesFrom(content, cells, s, p + 1, u)
  {
  }

  lemma CopyIsOf(content: string, cells: seq<Cell>, p: nat)
    requires p < |cells| && RestWell(content, cells) && cells[p].src.Copy?
    ensures var j := cells[p].src.index; j < |content| && cells[p] == Cell(content[j], Copy(j))
  {
    assert Genuine(content, cells[p]);
  }

  lemma LastOfCopies(content: string, cells: seq<Cell>, s: nat, p: nat, u: nat)
    requires CopiesFrom(content, cells, s, p, u)
    ensures cells[p].src == Copy(u + (p - s))
  {
  }

  lemma StartsHere(content: string, before: seq<seq<Cell>>, cells: seq<Cell>, p: nat)
    requires p < |cells| && RunStarts(content, before, cells) && StartsCopy(cells, p)
    requires var j := cells[p].src.index; j < |content| && cells[p] == Cell(content[j], Copy(j))
    ensures CopiesFrom(content, cells, p, p, cells[p].src.index) && StartOk(content, before, p, cells[p].src.index)
  {
    hide StartOk;
  }

  /** A copied rune belongs to a copy that runs without a gap from where copies may start. */
  lemma {:induction false} CopyRunsBack(content: string, before: seq<seq<Cell>>, cells: seq<Cell>, p: nat)
    returns (s: nat, u: nat)
    requires p < |cells| && RestWell(content, cells) && RunStarts(content, before, cells) && cells[p].src.Copy?
    ensures CopiesFrom(content, cells, s, p, u) && StartOk(content, before, s, u)
    decreases p
  {
    hide RestWell, RunStarts, StartOk, CopiesFrom;
    CopyIsOf(content, cells, p);
    if StartsCopy(cells, p) {
      s, u := p, cells[p].src.index;
      StartsHere(content, before, cells, p);
    } else {
      s, u := CopyRunsBack(content, before, cells, p - 1);
      LastOfCopies(content, cells, s, p - 1, u);
      CopiesFromMore(content, cells, s, p - 1, u);
    }
  }

  // The end of a header

  lemma BlankEarlier(content: string, i: nat, j: nat)
    requires i <= j && BlankBehind(content, j) && forall k :: i <= k < j ==> k < |content| && IsSpace(content[k])
    ensures BlankBehind(content, i)
  {
    var e: nat :| BlankUpTo(content, j, e);
    assert BlankUpTo(content, i, e);
  }

  /** A line of the message or of a copy, up to its newline: what is trimmed off behind the header is white space. */
  lemma LineEnds(content: string, line: seq<Cell>, h: nat)
    requires RestWell(content, line) && 3 <= h < |line| && line[|line| - 1].ch == '\n'
    requires InLine(line[..|line| - 1]) && IsStretch(line[..|line| - 1])
    requires forall k :: h <= k < |line| - 1 ==> IsSpace(line[k].ch)
    ensures HeaderEnds(content, Shift(line[0].src, h - 1).index)
  {
    var n, s := |line| - 1, line[0].src;
    var i := s.index;
    var body := line[..n];
    assert forall k :: 0 <= k < n ==> body[k] == line[k] && body[k].src == Shift(body[0].src, k);
    forall k | 0 <= k < n
      ensures i + k < |content| && content[i + k] == line[k].ch
    {
      assert Genuine(content, line[k]);
    }
    assert LinkedAt(content, line, n - 1) && Genuine(content, line[n]);
    forall k | i + h <= k < i + n
      ensures k < |content| && IsSpace(content[k])
    {
      assert content[i + (k - i)] == line[k - i].ch;
    }
    if line[n].src.Separator? {
      SeparatorEnds(content, i, h, n);
    } else {
      assert line[n].src == Input(i + n);
      assert BlankUpTo(content, i + h, i + n);
    }
  }

  lemma SeparatorEnds(content: string, i: nat, h: nat, n: nat)
    requires h <= n && 0 < h && HeaderEnds(content, i + n - 1)
    requires forall k :: i + h <= k < i + n ==> k < |content| && IsSpace(content[k])
    ensures HeaderEnds(content, i + h - 1)
  {
    if h < n {
      assert IsSpace(content[i + n - 1]);
      BlankEarlier(content, i + h, i + n);
    }
  }

  /** The line of a header: ink up to its length, then white space, then the newline. */
  ghost predicate IsLine(line: seq<Cell>, h: nat) {
    && 3 <= h < |line| && line[|line| - 1].ch == '\n' && InLine(line[..|line| - 1])
    && forall k :: h <= k < |line| - 1 ==> IsSpace(line[k].ch)
  }

  lemma HeaderLine(rest: seq<Cell>, u: nat) returns (n: nat)
    requires FenceAt(Runes(rest), u) && 0 <= FirstNewline(Runes(rest)[u..])
    ensures u + n + 1 <= |rest| && IsLine(rest[u..u + n + 1], HeaderLength(Runes(rest), u))
  {
    var s, h := Runes(rest)[u..], HeaderLength(Runes(rest), u);
    n := FirstNewline(s);
    FirstNewlineIsFirst(s);
    KeptIs(s[..n], IsSpace);
    assert h == Kept(s[..n], IsSpace);
    hide HeaderLength, FirstNewline, Kept, IsSpace;
    var line := rest[u..u + n + 1];
    assert forall k :: 0 <= k < n + 1 ==> line[k].ch == s[k];
    assert forall k :: h <= k < n ==> s[..n][k] == s[k];
  }

  lemma LineHeaderEnds(content: string, line: seq<Cell>, h: nat)
    requires RestWell(content, line) && IsLine(line, h)
    ensures line[h - 1].src.Input? || line[h - 1].src.Copy?
    ensures HeaderEnds(content, line[h - 1].src.index)
  {
    var n := |line| - 1;
    var body := line[..n];
    assert line[0..n] == body && body[..n] == body;
    RestWellSlice(content, line, 0, n);
    HeaderIsStretch(content, body, n);
    assert body[h - 1] == line[h - 1] && body[0] == line[0];
    hide HeaderEnds, RestWell;
    LineEnds(content, line, h);
  }

  /** The copied header is the fence line up to its last rune with ink, or the three backticks alone. */
  lemma HeaderEndsThere(content: string, rest: seq<Cell>, u: nat)
    requires RestWell(content, rest) && FenceAt(Runes(rest), u)
    ensures var header := rest[u..u + HeaderLength(Runes(rest), u)];
      && IsStretch(header) && HeaderEnds(content, header[|header| - 1].src.index)
  {
    var h := HeaderLength(Runes(rest), u);
    var header := rest[u..u + h];
    HeaderCells(rest, u);
    RestWellSlice(content, rest, u, u + h);
    HeaderIsStretch(content, header, h);
    assert header[..h] == header;
    if FirstNewline(Runes(rest)[u..]) < 0 {
      assert h == 3;
      BackticksEnd(content, header);
    } else {
      hide HeaderLength, FirstNewline, HeaderEnds, InLine, IsLine, FenceAt, RestWell;
      var n := HeaderLine(rest, u);
      RestWellSlice(content, rest, u, u + n + 1);
      LineHeaderEnds(content, rest[u..u + n + 1], h);
      assert header[h - 1] == rest[u..u + n + 1][h - 1] by {
        assert IsLine(rest[u..u + n + 1], h);
        LineIsLonger(rest[u..u + n + 1], h);
      }
    }
  }

  lemma LineIsLonger(line: seq<Cell>, h: nat)
    requires IsLine(line, h)
    ensures 3 <= h < |line|
  {
  }

  lemma BackticksEnd(content: string, header: seq<Cell>)
    requires RestWell(content, header) && IsStretch(header) && |header| == 3 && FenceAt(Runes(header), 0)
    ensures HeaderEnds(content, header[2].src.index)
  {
    assert Genuine(content, header[0]) && Genuine(content, header[1]) && Genuine(content, header[2]);
    assert Runes(header)[0] == header[0].ch && Runes(header)[1] == header[1].ch && Runes(header)[2] == header[2].ch;
    assert FenceAt(content, header[2].src.index - 2);
  }
}
