/** Nothing is lost and nothing is invented by the splitter. */
module SplitConservation {
  import opened Text
  import opened SplitScan
  import opened Splitter
  import opened SplitTermination
  import opened SplitTags
  import opened SplitPutIn

  /** Indices of the message's own runes in a tagged text. */
  function Inputs(cells: seq<Cell>): seq<nat> {
    if cells == [] then []
    else InputOf(cells[0]) + Inputs(cells[1..])
  }

  function InputOf(c: Cell): seq<nat> {
    if c.src.Input? then [c.src.index] else []
  }

  function Flat(sent: seq<seq<Cell>>): seq<Cell> {
    if sent == [] then [] else Flat(sent[..|sent| - 1]) + sent[|sent| - 1]
  }

  lemma {:induction false} InputsConcat(a: seq<Cell>, b: seq<Cell>)
    ensures Inputs(a + b) == Inputs(a) + Inputs(b)
  {
    if a == [] {
      assert a + b == b;
    } else {
      assert (a + b)[1..] == a[1..] + b;
      hide InputOf;
      InputsConcat(a[1..], b);
      assert InputOf(a[0]) + (Inputs(a[1..]) + Inputs(b)) == (InputOf(a[0]) + Inputs(a[1..])) + Inputs(b);
    }
  }

  /** Strictly ascending, and without a gap where the message has ink. */
  ghost predicate Complete(content: string, indices: seq<nat>) {
    && (forall p, q :: 0 <= p < q < |indices| ==> indices[p] < indices[q])
    && (forall i :: 0 <= i < |content| && !IsSpace(content[i]) ==> i in indices)
  }

  ghost predicate Invariant(content: string, st: TaggedState) {
    && Complete(content, Inputs(Flat(st.sent) + st.rest))
    && RestWell(content, st.rest) && RunStarts(content, st.sent, st.rest)
    && (forall k :: 0 <= k < |st.sent| ==> SentWell(content, st.sent[..k], st.sent[k]))
    && (forall k :: 0 <= k < |st.sent| ==> ReopenedBehind(content, st, k))
  }

  /** Behind a chunk that was closed, what follows starts with the fence that is open. */
  ghost predicate ReopenedBehind(content: string, st: TaggedState, k: nat)
    requires k < |st.sent|
  {
    Closed(st.sent[k]) ==> StartsReopened(content, if k + 1 < |st.sent| then st.sent[k + 1] else st.rest)
  }

  lemma DropFromComplete(content: string, a: seq<nat>, w: seq<nat>, b: seq<nat>)
    requires Complete(content, a + w + b)
    requires forall i :: i in w ==> i < |content| && IsSpace(content[i])
    ensures Complete(content, a + b)
  {
    var s := a + w + b;
    forall i | 0 <= i < |content| && !IsSpace(content[i])
      ensures i in a + b
    {
      assert i in s;
    }
    forall p, q | 0 <= p < q < |a + b|
      ensures (a + b)[p] < (a + b)[q]
    {
      var p' := if p < |a| then p else p + |w|;
      var q' := if q < |a| then q else q + |w|;
      assert s[p'] == (a + b)[p] && s[q'] == (a + b)[q];
    }
  }

  lemma {:induction false} BlankInputs(content: string, w: seq<Cell>)
    requires forall i :: 0 <= i < |w| ==> Genuine(content, w[i]) && IsSpace(w[i].ch)
    ensures forall i :: i in Inputs(w) ==> i < |content| && IsSpace(content[i])
  {
    if w != [] {
      assert Genuine(content, w[0]);
      BlankInputs(content, w[1..]);
    }
  }

  lemma InputsConcat3(a: seq<Cell>, b: seq<Cell>, c: seq<Cell>)
    ensures Inputs(a + b + c) == Inputs(a) + Inputs(b) + Inputs(c)
  {
    hide Inputs;
    InputsConcat(a + b, c);
    InputsConcat(a, b);
  }

  /** Leaving white space out, or putting runes in that are not the message's, keeps the message complete. */
  lemma Replace(content: string, a: seq<Cell>, w: seq<Cell>, b: seq<Cell>, x: seq<Cell>)
    requires Complete(content, Inputs(a + w + b))
    requires forall i :: 0 <= i < |w| ==> Genuine(content, w[i]) && IsSpace(w[i].ch)
    requires Inputs(x) == []
    ensures Complete(content, Inputs(a + x + b))
  {
    hide *;
    InputsConcat3(a, w, b);
    InputsConcat3(a, x, b);
    BlankInputs(content, w);
    DropFromComplete(content, Inputs(a), Inputs(w), Inputs(b));
    EmptyBetween(Inputs(a), Inputs(x), Inputs(b));
  }

  lemma EmptyBetween<T>(a: seq<T>, x: seq<T>, b: seq<T>)
    requires x == []
    ensures a + x + b == a + b
  {
  }

  lemma {:induction false} NoInputs(x: seq<Cell>)
    requires forall i :: 0 <= i < |x| ==> !x[i].src.Input?
    ensures Inputs(x) == []
  {
    if x != [] {
      NoInputs(x[1..]);
    }
  }

  lemma FlatSnoc(sent: seq<seq<Cell>>, chunk: seq<Cell>)
    ensures Flat(sent + [chunk]) == Flat(sent) + chunk
  {
    assert (sent + [chunk])[..|sent|] == sent;
  }

  /** Blank runes dropped between what is sent and what is left do not count. */
  lemma DropBetween(content: string, sent: seq<Cell>, rest: seq<Cell>, i: nat, j: nat, x: seq<Cell>)
    requires i <= j <= |rest| && Complete(content, Inputs(sent + rest)) && Inputs(x) == []
    requires forall k :: 0 <= k < |rest| ==> Genuine(content, rest[k])
    requires forall k :: i <= k < j ==> IsSpace(rest[k].ch)
    ensures Complete(content, Inputs(sent + rest[..i] + x + rest[j..]))
  {
    assert sent + rest == (sent + rest[..i]) + rest[i..j] + rest[j..];
    hide Complete, Inputs, Genuine;
    Replace(content, sent + rest[..i], rest[i..j], rest[j..], x);
  }

  lemma DropOut(content: string, sent: seq<Cell>, rest: seq<Cell>, i: nat, j: nat)
    requires i <= j <= |rest| && Complete(content, Inputs(sent + rest))
    requires forall k :: 0 <= k < |rest| ==> Genuine(content, rest[k])
    requires forall k :: i <= k < j ==> IsSpace(rest[k].ch)
    ensures Complete(content, Inputs(sent + rest[..i] + rest[j..]))
  {
    NoInputs([]);
    hide *;
    DropBetween(content, sent, rest, i, j, []);
    assert sent + rest[..i] + [] == sent + rest[..i];
  }

  lemma PlainCompletes(content: string, flat: seq<Cell>, rest: seq<Cell>, end: nat)
    requires Complete(content, Inputs(flat + rest)) && RestWell(content, rest) && end <= |rest|
    ensures var k := Leading(Runes(rest[end..]), IsBlank);
            Complete(content, Inputs(flat + rest[..end] + rest[end..][k..])) && RestWell(content, rest[end..][k..])
  {
    hide *;
    var k := Leading(Runes(rest[end..]), IsBlank);
    var left := rest[end..][k..];
    LeadingCells(rest, end);
    assert left == rest[end + k..|rest|];
    RestWellSlice(content, rest, end + k, |rest|);
    RestCellsGenuine(content, rest);
    DropOut(content, flat, rest, end, end + k);
  }

  /** What a fenced cut puts in between the part that is sent and the part that is left. */
  function PutIn(rest: seq<Cell>, c: Cut): seq<Cell>
    requires c.Fenced? && c.open + c.header <= |rest|
  {
    CLOSER_CELLS + Copies(rest[c.open..c.open + c.header]) + [Cell('\n', Separator)]
  }

  lemma PutInHasNoInputs(rest: seq<Cell>, c: Cut)
    requires c.Fenced? && c.open + c.header <= |rest|
    requires Inputs(Copies(rest[c.open..c.open + c.header])) == []
    ensures Inputs(PutIn(rest, c)) == []
  {
    var header := Copies(rest[c.open..c.open + c.header]);
    var sep := [Cell('\n', Separator)];
    InputsConcat(CLOSER_CELLS + header, sep);
    InputsConcat(CLOSER_CELLS, header);
    NoInputs(CLOSER_CELLS);
    NoInputs(sep);
  }

  lemma PutInBetween(flat: seq<Cell>, rest: seq<Cell>, c: Cut, k: nat)
    requires c.Fenced? && k <= c.end <= |rest| && c.open + c.header <= |rest|
    ensures flat + rest[..k] + PutIn(rest, c) + rest[c.end..] == flat + (rest[..k] + CLOSER_CELLS) + Reopened(rest, c)
  {
    hide Copies;
    var copies := Copies(rest[c.open..c.open + c.header]);
    Regroup(flat, rest[..k], CLOSER_CELLS, copies, [Cell('\n', Separator)], rest[c.end..]);
  }

  lemma FencedCompletes(content: string, flat: seq<Cell>, rest: seq<Cell>, c: Cut)
    requires Complete(content, Inputs(flat + rest)) && RestWell(content, rest)
    requires c.Fenced? && c.end <= |rest| && c.open + c.header <= |rest|
    requires Inputs(Copies(rest[c.open..c.open + c.header])) == []
    ensures var k := Kept(Runes(rest[..c.end]), IsBlank);
            Complete(content, Inputs(flat + (rest[..k] + CLOSER_CELLS) + Reopened(rest, c)))
  {
    hide *;
    var k := Kept(Runes(rest[..c.end]), IsBlank);
    TrailingCells(rest, c.end);
    PutInHasNoInputs(rest, c);
    RestCellsGenuine(content, rest);
    DropBetween(content, flat, rest, k, c.end, PutIn(rest, c));
    PutInBetween(flat, rest, c, k);
  }

  lemma TrimCompletes(content: string, sent: seq<Cell>, x: seq<Cell>)
    requires Complete(content, Inputs(sent + x)) && RestWell(content, x)
    ensures var j := Kept(Runes(x), IsSpace);
            Complete(content, Inputs(sent + x[..j])) && RestWell(content, x[..j])
  {
    var j := Kept(Runes(x), IsSpace);
    hide *;
    KeptIs(Runes(x), IsSpace);
    BlankCells(x, j, |x|);
    RestCellsGenuine(content, x);
    DropOut(content, sent, x, j, |x|);
    assert sent + x[..j] + x[|x|..] == sent + x[..j];
    RestWellSlice(content, x, 0, j);
  }

  lemma Regroup<T>(f: seq<T>, r: seq<T>, c: seq<T>, h: seq<T>, s: seq<T>, e: seq<T>)
    ensures f + r + (c + h + s) + e == f + (r + c) + (h + s + e)
  {
  }

  // Copies across a cut

  lemma ContinuesMore(content: string, sent: seq<seq<Cell>>, chunk: seq<Cell>, j: nat)
    requires Continues(content, sent, j)
    ensures Continues(content, sent + [chunk], j)
  {
    hide EndsBefore;
    var m :| 0 <= m < |sent| && EndsBefore(content, sent[m], j);
    assert (sent + [chunk])[m] == sent[m];
  }

  lemma ContinuesLater(content: string, sent: seq<seq<Cell>>, i: nat, j: nat)
    requires Continues(content, sent, i) && i <= j <= |content| && forall k :: i <= k < j ==> IsSpace(content[k])
    ensures Continues(content, sent, j)
  {
    hide IsSpace, BodyOf;
    var m :| 0 <= m < |sent| && EndsBefore(content, sent[m], i);
    var n: nat :| EndsAtBefore(content, sent[m], n, i);
    assert EndsAtBefore(content, sent[m], n, j);
    assert EndsBefore(content, sent[m], j);
  }

  /** The chunk ends with cell lo - 1 of the rest, if there is one. */
  ghost predicate EndsWithCell(chunk: seq<Cell>, rest: seq<Cell>, lo: nat)
    requires lo <= |rest|
  {
    0 < lo ==> exists n: nat :: 0 < n && BodyOf(chunk, n) && chunk[n - 1] == rest[lo - 1]
  }

  lemma NeighbourContinues(content: string, sent: seq<seq<Cell>>, chunk: seq<Cell>, rest: seq<Cell>, e: nat)
    requires 0 < e < |rest| && RestWell(content, rest) && EndsWithCell(chunk, rest, e)
    requires rest[e].src.Copy? && rest[e - 1].src.Copy? && rest[e - 1].src.index + 1 == rest[e].src.index
    ensures Continues(content, sent + [chunk], rest[e].src.index)
  {
    var n: nat :| 0 < n && BodyOf(chunk, n) && chunk[n - 1] == rest[e - 1];
    assert Genuine(content, rest[e]);
    hide BodyOf, RestWell;
    assert EndsAtBefore(content, chunk, n, rest[e].src.index);
    assert EndsBefore(content, (sent + [chunk])[|sent|], rest[e].src.index);
  }

  /** A blank rune at the front of what is left is no fence: a copy that starts with it continues one. */
  lemma BlankStartContinues(content: string, sent: seq<seq<Cell>>, rest: seq<Cell>)
    requires rest != [] && RestWell(content, rest) && RunStarts(content, sent, rest)
    requires rest[0].src.Copy? && IsSpace(rest[0].ch)
    ensures Continues(content, sent, rest[0].src.index)
  {
    assert StartsCopy(rest, 0) && Genuine(content, rest[0]);
    assert !IsSpace('`');
    hide IsSpace, Continues;
  }

  /** A copy that is cut, with white space dropped at the cut, goes on behind it. */
  lemma {:induction false} CutCopyContinues(
    content: string, sent: seq<seq<Cell>>, chunk: seq<Cell>, rest: seq<Cell>, lo: nat, e: nat)
    requires lo <= e < |rest| && 0 < e && rest[e].src.Copy?
    requires RestWell(content, rest) && RunStarts(content, sent, rest) && EndsWithCell(chunk, rest, lo)
    requires forall i :: lo <= i < e ==> IsSpace(rest[i].ch)
    ensures Continues(content, sent + [chunk], rest[e].src.index)
    decreases e
  {
    var j := rest[e].src.index;
    if StartsCopy(rest, e) {
      assert StartOk(content, sent, e, j);
      ContinuesMore(content, sent, chunk, j);
    } else if e == lo {
      NeighbourContinues(content, sent, chunk, rest, e);
    } else {
      assert Genuine(content, rest[e - 1]) && Genuine(content, rest[e]) && IsSpace(rest[e - 1].ch);
      hide RestWell, RunStarts, Continues, IsSpace;
      if e == 1 {
        BlankStartContinues(content, sent, rest);
        ContinuesMore(content, sent, chunk, j - 1);
      } else {
        CutCopyContinues(content, sent, chunk, rest, lo, e - 1);
      }
      ContinuesLater(content, sent + [chunk], j - 1, j);
    }
  }

  // Parts of what is left

  lemma RunStartsFront(content: string, sent: seq<seq<Cell>>, rest: seq<Cell>, end: nat)
    requires end <= |rest| && RunStarts(content, sent, rest)
    ensures RunStarts(content, sent, rest[..end])
  {
    hide StartOk;
    forall p | 0 <= p < end && StartsCopy(rest[..end], p)
      ensures StartOk(content, sent, p, rest[p].src.index)
    {
      assert StartsCopy(rest, p);
    }
  }

  lemma RestStartContinues(content: string, sent: seq<seq<Cell>>, chunk: seq<Cell>, rest: seq<Cell>, p: nat)
    requires 0 < p < |rest| && RunStarts(content, sent, rest) && StartsCopy(rest, p)
    ensures Continues(content, sent + [chunk], rest[p].src.index)
  {
    assert StartOk(content, sent, p, rest[p].src.index);
    ContinuesMore(content, sent, chunk, rest[p].src.index);
  }

  lemma PlainRunStarts(content: string, sent: seq<seq<Cell>>, rest: seq<Cell>, lo: nat, e: nat)
    requires 0 < lo <= e <= |rest| && RestWell(content, rest) && RunStarts(content, sent, rest)
    requires forall i :: lo <= i < e ==> IsSpace(rest[i].ch)
    ensures RunStarts(content, sent + [rest[..lo]], rest[e..])
  {
    var chunk, left := rest[..lo], rest[e..];
    assert EndsWithCell(chunk, rest, lo) by {
      assert BodyOf(chunk, lo);
    }
    hide Continues, RestWell, RunStarts, EndsWithCell;
    forall p | 0 <= p < |left| && StartsCopy(left, p)
      ensures StartOk(content, sent + [chunk], p, left[p].src.index)
    {
      if p == 0 {
        CutCopyContinues(content, sent, chunk, rest, lo, e);
      } else {
        assert left[p] == rest[e + p] && left[p - 1] == rest[e + p - 1];
        RestStartContinues(content, sent, chunk, rest, e + p);
      }
    }
    StartsAreOk(content, sent + [chunk], left);
  }

  lemma StartsAreOk(content: string, sent: seq<seq<Cell>>, cells: seq<Cell>)
    requires forall p :: 0 <= p < |cells| && StartsCopy(cells, p) ==> StartOk(content, sent, p, cells[p].src.index)
    ensures RunStarts(content, sent, cells)
  {
  }

  // Fenced cuts

  /** A copy that starts with a fence of the message and runs on without a gap. */
  ghost predicate CopiesHeader(content: string, r: seq<Cell>) {
    && r != [] && r[0].src.Copy? && FenceAt(content, r[0].src.index)
    && forall i :: 0 <= i < |r| ==> r[i].src == Copy(r[0].src.index + i)
  }

  lemma CopiesAreWell(content: string, header: seq<Cell>)
    requires RestWell(content, header) && InLine(header) && IsStretch(header) && FenceAt(Runes(header), 0)
    ensures var r := Copies(header); RestWell(content, r) && Inputs(r) == [] && CopiesHeader(content, r)
  {
    var r := Copies(header);
    forall i | 0 <= i < |r|
      ensures Genuine(content, r[i]) && r[i].src == Copy(header[0].src.index + i)
    {
      CopyIsGenuine(content, header, i);
    }
    assert FenceAt(content, header[0].src.index) by {
      assert Genuine(content, r[0]) && Genuine(content, r[1]) && Genuine(content, r[2]);
      assert Runes(header)[0] == r[0].ch && Runes(header)[1] == r[1].ch && Runes(header)[2] == r[2].ch;
    }
    hide Genuine, IsStretch, FenceAt;
    NoInputs(r);
    assert forall p :: 0 <= p < |r| - 1 ==> LinkedAt(content, r, p);
  }

  lemma JoinWell(content: string, a: seq<Cell>, b: seq<Cell>)
    requires RestWell(content, a) && RestWell(content, b)
    requires a != [] && a[|a| - 1].src.Copy? && HeaderEnds(content, a[|a| - 1].src.index)
    ensures RestWell(content, a + [Cell('\n', Separator)] + b)
  {
    hide HeaderEnds, Genuine;
    var x := a + [Cell('\n', Separator)] + b;
    forall p | 0 <= p < |x| - 1
      ensures LinkedAt(content, x, p)
    {
      if p < |a| - 1 {
        assert LinkedAt(content, a, p);
      } else if |a| < p {
        assert LinkedAt(content, b, p - |a| - 1);
      }
    }
    assert Genuine(content, Cell('\n', Separator)) by {
      SeparatorIsGenuine(content);
    }
  }

  lemma SeparatorIsGenuine(content: string)
    ensures Genuine(content, Cell('\n', Separator))
  {
  }

  /** A cut in a block of what is left. */
  ghost predicate CutInBlock(rest: seq<Cell>, c: Cut) {
    && c.Fenced? && c.end <= |rest| && FenceAt(Runes(rest), c.open) && c.header == HeaderLength(Runes(rest), c.open)
  }

  /** The cells that a fenced cut copies. */
  function Header(rest: seq<Cell>, c: Cut): seq<Cell>
    requires c.Fenced? && c.open + c.header <= |rest|
  {
    rest[c.open..c.open + c.header]
  }

  lemma HeaderIsCopied(content: string, rest: seq<Cell>, c: Cut)
    requires RestWell(content, rest) && CutInBlock(rest, c)
    ensures var r := Copies(Header(rest, c));
      && RestWell(content, r) && Inputs(r) == [] && CopiesHeader(content, r)
      && r[|r| - 1].src.Copy? && HeaderEnds(content, r[|r| - 1].src.index)
  {
    hide RestWell, Inputs, Copies, HeaderLength, InLine, FenceAt, HeaderEnds, IsStretch, CopiesHeader;
    HeaderCells(rest, c.open);
    HeaderEndsThere(content, rest, c.open);
    RestWellSlice(content, rest, c.open, c.open + c.header);
    CopiesAreWell(content, Header(rest, c));
    LastCopy(Header(rest, c));
  }

  lemma ReopenedIsWell(content: string, rest: seq<Cell>, c: Cut)
    requires RestWell(content, rest) && CutInBlock(rest, c)
    ensures RestWell(content, Reopened(rest, c))
  {
    var r := Copies(Header(rest, c));
    assert Reopened(rest, c) == r + [Cell('\n', Separator)] + rest[c.end..];
    assert rest[c.end..|rest|] == rest[c.end..];
    HeaderIsCopied(content, rest, c);
    assert r != [];
    hide *;
    RestWellSlice(content, rest, c.end, |rest|);
    JoinWell(content, r, rest[c.end..]);
  }

  lemma LastCopy(header: seq<Cell>)
    requires IsStretch(header)
    ensures var r := Copies(header);
      r[|r| - 1].src == Copy(header[|header| - 1].src.index) && r[0].src == Copy(header[0].src.index)
  {
    assert header[|header| - 1].src == Shift(header[0].src, |header| - 1);
  }

  /** Inside a header copy no other copy starts. */
  lemma NoStartInHeader(content: string, r: seq<Cell>, tail: seq<Cell>, p: nat)
    requires CopiesHeader(content, r) && 0 < p < |r|
    ensures !StartsCopy(r + tail, p)
  {
    var x := r + tail;
    assert x[p - 1] == r[p - 1] && x[p] == r[p];
    hide FenceAt;
  }

  /** Behind the separator, copies start where they did in the rest, and perhaps at the cut. */
  lemma StartsBehindSeparator(
    content: string, sent: seq<seq<Cell>>, chunk: seq<Cell>, rest: seq<Cell>, lo: nat, e: nat, q: nat)
    requires lo <= e <= q < |rest| && 0 < e && RestWell(content, rest) && RunStarts(content, sent, rest)
    requires EndsWithCell(chunk, rest, lo) && forall i :: lo <= i < e ==> IsSpace(rest[i].ch)
    requires if q == e then rest[q].src.Copy? else StartsCopy(rest, q)
    ensures Continues(content, sent + [chunk], rest[q].src.index)
  {
    if q == e {
      hide *;
      CutCopyContinues(content, sent, chunk, rest, lo, e);
    } else {
      hide *;
      RestStartContinues(content, sent, chunk, rest, q);
    }
  }

  lemma BehindSeparator(r: seq<Cell>, tail: seq<Cell>, p: nat)
    requires |r| < p < |r| + 1 + |tail|
    ensures var x := r + ([Cell('\n', Separator)] + tail);
      && x[p] == tail[p - |r| - 1] && (p == |r| + 1 ==> x[p - 1].src.Separator?)
      && (|r| + 1 < p ==> x[p - 1] == tail[p - |r| - 2])
  {
  }

  lemma ReopenedRunStarts(
    content: string, sent: seq<seq<Cell>>, chunk: seq<Cell>, rest: seq<Cell>, r: seq<Cell>, lo: nat, e: nat)
    requires lo <= e <= |rest| && 0 < e && RestWell(content, rest) && RunStarts(content, sent, rest)
    requires EndsWithCell(chunk, rest, lo) && Closed(chunk) && forall i :: lo <= i < e ==> IsSpace(rest[i].ch)
    requires CopiesHeader(content, r)
    ensures RunStarts(content, sent + [chunk], r + [Cell('\n', Separator)] + rest[e..])
  {
    var h, all, tail := |r|, sent + [chunk], rest[e..];
    var x := r + ([Cell('\n', Separator)] + tail);
    assert x == r + [Cell('\n', Separator)] + tail;
    assert x[0] == r[0] && x[h].src.Separator? && all[|all| - 1] == chunk;
    hide Continues, RestWell, RunStarts, EndsWithCell, Closed, FenceAt;
    forall p | 0 <= p < |x| && StartsCopy(x, p)
      ensures StartOk(content, all, p, x[p].src.index)
    {
      if 0 < p < h {
        NoStartInHeader(content, r, [Cell('\n', Separator)] + tail, p);
      } else if h < p {
        BehindSeparator(r, tail, p);
        var q := e + (p - h - 1);
        assert tail[q - e] == rest[q] && (e < q ==> tail[q - e - 1] == rest[q - 1]);
        StartsBehindSeparator(content, sent, chunk, rest, lo, e, q);
      }
    }
    StartsAreOk(content, all, x);
  }

  // Each iteration

  lemma NotClosed(body: seq<Cell>)
    requires forall i :: 0 <= i < |body| ==> !body[i].src.Closing?
    ensures !Closed(body)
  {
    assert 4 <= |body| ==> body[|body| - 4..][3] == body[|body| - 1];
    assert CLOSER_CELLS[3].src.Closing?;
  }

  lemma PartIsSentWell(content: string, sent: seq<seq<Cell>>, rest: seq<Cell>, end: nat)
    requires end <= |rest| && RestWell(content, rest) && RunStarts(content, sent, rest)
    ensures SentWell(content, sent, rest[..end]) && SentWell(content, sent, rest[..end] + CLOSER_CELLS)
    ensures !Closed(rest[..end]) && Closed(rest[..end] + CLOSER_CELLS)
  {
    var body := rest[..end];
    assert rest[0..end] == body && body[..end] == body && (body + CLOSER_CELLS)[..end] == body;
    assert (body + CLOSER_CELLS)[end..] == CLOSER_CELLS && |body + CLOSER_CELLS| - 4 == end;
    NotClosed(body);
    RestWellSlice(content, rest, 0, end);
    RunStartsFront(content, sent, rest, end);
    hide RestWell, RunStarts;
    assert SentWellTo(content, sent, body, end);
    assert SentWellTo(content, sent, body + CLOSER_CELLS, end);
  }

  lemma Assemble(content: string, st: TaggedState, rest: seq<Cell>, chunk: seq<Cell>)
    requires Invariant(content, st) && SentWell(content, st.sent, chunk)
    requires RestWell(content, rest) && RunStarts(content, st.sent + [chunk], rest)
    requires Complete(content, Inputs(Flat(st.sent) + chunk + rest))
    requires StartsReopened(content, st.rest) ==> StartsReopened(content, chunk)
    requires Closed(chunk) ==> StartsReopened(content, rest)
    ensures Invariant(content, TaggedState(rest, st.sent + [chunk]))
  {
    hide Complete, Inputs, RestWell, SentWell, RunStarts, Closed, StartsReopened, Flat;
    FlatSnoc(st.sent, chunk);
    var all := st.sent + [chunk];
    var t := TaggedState(rest, all);
    forall k | 0 <= k < |all|
      ensures SentWell(content, all[..k], all[k]) && ReopenedBehind(content, t, k)
    {
      if k < |st.sent| {
        assert all[..k] == st.sent[..k] && all[k] == st.sent[k];
        assert SentWell(content, st.sent[..k], st.sent[k]) && ReopenedBehind(content, st, k);
        assert k + 1 < |st.sent| ==> all[k + 1] == st.sent[k + 1];
      } else {
        assert all[..k] == st.sent;
      }
    }
  }

  lemma PlainKeeps(content: string, st: TaggedState, c: Cut)
    requires Invariant(content, st) && c.Plain? && 0 < c.end <= |st.rest|
    ensures Invariant(content, TaggedState(TaggedRest(st.rest, c), st.sent + [TaggedChunk(st.rest, c)]))
  {
    var rest, e := st.rest, c.end + Leading(Runes(st.rest[c.end..]), IsBlank);
    LeadingCells(rest, c.end);
    assert TaggedRest(rest, c) == rest[e..] && TaggedChunk(rest, c) == rest[..c.end];
    hide Leading, Inputs, Complete, Flat, SentWell, RestWell, RunStarts, Closed, TaggedRest, TaggedChunk, FenceAt;
    PlainCompletes(content, Flat(st.sent), rest, c.end);
    PartIsSentWell(content, st.sent, rest, c.end);
    PlainRunStarts(content, st.sent, rest, c.end, e);
    assert StartsReopened(content, rest) ==> StartsReopened(content, rest[..c.end]);
    Assemble(content, st, rest[e..], rest[..c.end]);
  }

  /** What is left ends with the last cell that is sent, up to white space. */
  lemma SentPartEnds(rest: seq<Cell>, k: nat)
    requires k <= |rest|
    ensures EndsWithCell(rest[..k] + CLOSER_CELLS, rest, k)
  {
    if 0 < k {
      var chunk := rest[..k] + CLOSER_CELLS;
      assert chunk[k..] == CLOSER_CELLS && BodyOf(chunk, k) && chunk[k - 1] == rest[k - 1];
    }
  }

  lemma FenceIsSent(content: string, rest: seq<Cell>, end: nat)
    requires 0 < end <= |rest| && RestWell(content, rest) && StartsReopened(content, rest)
    ensures 0 < Kept(Runes(rest[..end]), IsBlank)
  {
    assert Genuine(content, rest[0]);
    KeptCovers(Runes(rest[..end]), IsBlank, 0);
  }

  lemma HeaderIsKept(content: string, x: seq<Cell>)
    requires RestWell(content, x) && StartsReopened(content, x)
    ensures 0 < Kept(Runes(x), IsSpace)
  {
    assert Genuine(content, x[0]);
    KeptCovers(Runes(x), IsSpace, 0);
  }

  /** The chunk of a fenced cut is closed; between its last cell and the cut there is white space. */
  lemma ClosedChunkEnds(rest: seq<Cell>, c: Cut) returns (k: nat)
    requires c.Fenced? && c.end <= |rest|
    ensures k <= c.end && EndsWithCell(TaggedChunk(rest, c), rest, k) && Closed(TaggedChunk(rest, c))
    ensures TaggedChunk(rest, c) == rest[..k] + CLOSER_CELLS && k == Kept(Runes(rest[..c.end]), IsBlank)
    ensures forall i :: k <= i < c.end ==> IsSpace(rest[i].ch)
  {
    k := Kept(Runes(rest[..c.end]), IsBlank);
    assert TaggedChunk(rest, c) == rest[..k] + CLOSER_CELLS;
    hide Kept, IsBlank, IsSpace, TaggedChunk, EndsWithCell, Closed;
    TrailingCells(rest, c.end);
    SentPartEnds(rest, k);
    ClosedChunk(rest[..k]);
  }

  lemma ReopenedParts(content: string, rest: seq<Cell>, c: Cut)
    requires RestWell(content, rest) && CutInBlock(rest, c)
    ensures var r, x := Copies(Header(rest, c)), Reopened(rest, c);
      && x == r + [Cell('\n', Separator)] + rest[c.end..] && CopiesHeader(content, r) && Inputs(r) == []
      && RestWell(content, x) && StartsReopened(content, x)
  {
    HeaderIsCopied(content, rest, c);
    ReopenedIsWell(content, rest, c);
    hide RestWell, Inputs, Copies, HeaderLength, FenceAt;
    var r, x := Copies(Header(rest, c)), Reopened(rest, c);
    assert x == r + [Cell('\n', Separator)] + rest[c.end..];
    assert x[0] == r[0];
  }

  /** What a fenced cut leaves, before white space is trimmed off its end. */
  lemma ReopenedIsFine(content: string, st: TaggedState, c: Cut, chunk: seq<Cell>)
    requires Invariant(content, st) && CutInBlock(st.rest, c) && 0 < c.end && chunk == TaggedChunk(st.rest, c)
    ensures var x := Reopened(st.rest, c);
      && RestWell(content, x) && RunStarts(content, st.sent + [chunk], x) && StartsReopened(content, x)
      && Complete(content, Inputs(Flat(st.sent) + chunk + x))
  {
    hide Inputs, Complete, Flat, SentWell, RestWell, HeaderLength, Reopened, RunStarts, TaggedChunk, EndsWithCell,
      FenceAt, Copies, CopiesHeader, Closed, Kept, StartsReopened;
    var k := ClosedChunkEnds(st.rest, c);
    ReopenedParts(content, st.rest, c);
    ReopenedRunStarts(content, st.sent, chunk, st.rest, Copies(Header(st.rest, c)), k, c.end);
    FencedCompletes(content, Flat(st.sent), st.rest, c);
  }

  lemma FencedRestIsWell(content: string, st: TaggedState, c: Cut, chunk: seq<Cell>)
    requires Invariant(content, st) && CutInBlock(st.rest, c) && 0 < c.end && chunk == TaggedChunk(st.rest, c)
    ensures var left := TaggedRest(st.rest, c);
      && RestWell(content, left) && RunStarts(content, st.sent + [chunk], left) && StartsReopened(content, left)
      && Complete(content, Inputs(Flat(st.sent) + chunk + left))
  {
    var x := Reopened(st.rest, c);
    var j := Kept(Runes(x), IsSpace);
    assert TaggedRest(st.rest, c) == x[..j];
    hide Kept, Inputs, Complete, Flat, RestWell, HeaderLength, Reopened, RunStarts, TaggedRest, TaggedChunk, CutInBlock,
      FenceAt;
    ReopenedIsFine(content, st, c, chunk);
    HeaderIsKept(content, x);
    TrimCompletes(content, Flat(st.sent) + chunk, x);
    RunStartsFront(content, st.sent + [chunk], x, j);
  }

  lemma ClosedChunk(body: seq<Cell>)
    ensures Closed(body + CLOSER_CELLS)
  {
  }

  lemma FencedKeeps(content: string, st: TaggedState, c: Cut)
    requires Invariant(content, st) && CutInBlock(st.rest, c) && 0 < c.end
    ensures Invariant(content, TaggedState(TaggedRest(st.rest, c), st.sent + [TaggedChunk(st.rest, c)]))
  {
    var rest, chunk := st.rest, TaggedChunk(st.rest, c);
    var k := Kept(Runes(rest[..c.end]), IsBlank);
    if StartsReopened(content, rest) {
      FenceIsSent(content, rest, c.end);
      assert chunk[0] == rest[0];
    }
    assert chunk == rest[..k] + CLOSER_CELLS;
    FencedRestIsWell(content, st, c, chunk);
    PartIsSentWell(content, st.sent, rest, k);
    hide Kept, Inputs, Complete, Flat, SentWell, RestWell, RunStarts, Closed, TaggedRest, TaggedChunk, CutInBlock;
    Assemble(content, st, TaggedRest(rest, c), chunk);
  }

  lemma LastKeeps(content: string, st: TaggedState)
    requires Invariant(content, st)
    ensures Invariant(content, TaggedState([], st.sent + [st.rest]))
  {
    assert st.rest[..|st.rest|] == st.rest;
    PartIsSentWell(content, st.sent, st.rest, |st.rest|);
    assert Flat(st.sent) + st.rest + [] == Flat(st.sent) + st.rest;
    assert RestWell(content, []) && RunStarts(content, st.sent + [st.rest], []);
    hide RestWell, RunStarts, SentWell, Closed, Flat, Complete, Inputs;
    Assemble(content, st, [], st.rest);
  }

  /** Only with a limit of 5 a fenced cut can leave nothing in front of the closing fence. */
  ghost predicate CutsSomething(rest: seq<Cell>, maxLen: nat)
    requires 0 < maxLen
  {
    maxLen < |rest| ==> 0 < ChooseCut(Runes(rest), maxLen).end
  }

  lemma StepKeeps(content: string, st: TaggedState, maxLen: nat)
    requires 0 < maxLen && st.rest != [] && Invariant(content, st) && CutsSomething(st.rest, maxLen)
    ensures Invariant(content, TaggedNext(st, maxLen))
  {
    if |st.rest| <= maxLen {
      LastKeeps(content, st);
    } else {
      var c := ChooseCut(Runes(st.rest), maxLen);
      assert c.Fenced? ==> CutInBlock(st.rest, c);
      hide ChooseCut, Invariant, CutInBlock;
      if c.Plain? {
        PlainKeeps(content, st, c);
      } else {
        FencedKeeps(content, st, c);
      }
    }
  }

  /** In a run that ends, every cut takes something off: with a limit of 5 a fenced cut is repeated for ever. */
  lemma CutsTakeSomething(st: TaggedState, maxLen: nat, n: nat)
    requires 0 < maxLen && Finishes(State(Runes(st.rest), Untagged(st.sent)), maxLen, n)
    ensures CutsSomething(st.rest, maxLen)
  {
    if maxLen < |st.rest| && ChooseCut(Runes(st.rest), maxLen).end == 0 {
      CutHasEnd(Runes(st.rest), maxLen);
      EmptyCutNeverEnds(State(Runes(st.rest), Untagged(st.sent)), n);
    }
  }

  lemma CutHasEnd(t: string, maxLen: nat)
    requires 0 < maxLen < |t| && ChooseCut(t, maxLen).end == 0
    ensures maxLen == 5 && ChooseCut(t, maxLen).Fenced?
  {
    FencedCutIsFar(t, maxLen);
    hide ChooseCut, HeaderLength;
  }

  /** The chunks carry every rune of the message that is not white space, once and in order. */
  ghost predicate Conserves(content: string, chunks: seq<string>, sent: seq<seq<Cell>>) {
    && Untagged(sent) == chunks
    && Complete(content, Inputs(Flat(sent)))
    && (forall k :: 0 <= k < |sent| ==> SentWell(content, sent[..k], sent[k]))
    && (forall k :: 0 <= k < |sent| && Closed(sent[k]) ==> k + 1 < |sent| && StartsReopened(content, sent[k + 1]))
  }

  lemma {:induction false} RunConserves(content: string, st: TaggedState, maxLen: nat, n: nat)
    returns (end: TaggedState)
    requires 0 < maxLen && Invariant(content, st) && Finishes(State(Runes(st.rest), Untagged(st.sent)), maxLen, n)
    ensures Invariant(content, end)
    ensures State(Runes(end.rest), Untagged(end.sent)) == Run(State(Runes(st.rest), Untagged(st.sent)), maxLen, n)
    decreases n
  {
    hide Invariant, TaggedNext, Next, CutsSomething;
    if n == 0 || st.rest == [] {
      end := st;
    } else {
      CutsTakeSomething(st, maxLen, n);
      StepKeeps(content, st, maxLen);
      TaggedNextIsNext(st, maxLen);
      end := RunConserves(content, TaggedNext(st, maxLen), maxLen, n - 1);
    }
  }

  lemma {:induction false} TaggedInputs(content: string, n: nat)
    requires n <= |content|
    ensures var s := Inputs(Tagged(content)[..n]); |s| == n && forall i :: 0 <= i < n ==> s[i] == i
  {
    if n != 0 {
      TaggedInputs(content, n - 1);
      assert Tagged(content)[..n] == Tagged(content)[..n - 1] + [Cell(content[n - 1], Input(n - 1))];
      InputsConcat(Tagged(content)[..n - 1], [Cell(content[n - 1], Input(n - 1))]);
      assert Inputs([Cell(content[n - 1], Input(n - 1))]) == [n - 1];
    }
  }

  lemma TaggedIsComplete(content: string)
    ensures Invariant(content, TaggedState(Tagged(content), []))
  {
    var cells := Tagged(content);
    assert Complete(content, Inputs(cells)) by {
      TaggedInputs(content, |content|);
      assert cells[..|content|] == cells;
      hide Inputs;
      forall i | 0 <= i < |content|
        ensures i in Inputs(cells)
      {
        assert Inputs(cells)[i] == i;
      }
    }
    hide Inputs, Complete;
    assert Flat([]) + cells == cells;
    assert RestWell(content, cells) by {
      assert forall p :: 0 <= p < |cells| - 1 ==> LinkedAt(content, cells, p);
    }
    assert RunStarts(content, [], cells);
  }

  /**
   * When the splitter is done, the runes of the chunks can be told apart as runes of the message and runes that
   * were put in. Every rune of the message that is not white space occurs exactly once and in order. A chunk that was
   * closed with a fence is followed by one that starts with a copy of a fence line of the message: the line up to its
   * last rune with ink, or its three backticks alone, and a newline. Such a copy can be cut at the end of a chunk and
   * then goes on later; no other rune is put in.
   */
  lemma NothingLost(content: string, maxLen: nat, n: nat)
    requires 0 < maxLen && Finishes(State(content, []), maxLen, n)
    ensures exists sent :: Conserves(content, Run(State(content, []), maxLen, n).chunks, sent)
  {
    TaggedIsComplete(content);
    assert Untagged([]) == [];
    var end := RunConserves(content, TaggedState(Tagged(content), []), maxLen, n);
    hide Run;
    assert end.rest == [] && Flat(end.sent) + end.rest == Flat(end.sent);
    DoneConserves(content, end);
    assert Conserves(content, Run(State(content, []), maxLen, n).chunks, end.sent);
  }

  lemma DoneConserves(content: string, end: TaggedState)
    requires Invariant(content, end) && end.rest == []
    ensures Conserves(content, Untagged(end.sent), end.sent)
  {
    assert Flat(end.sent) + [] == Flat(end.sent);
    hide Flat, Complete, Inputs, SentWell, Closed;
    forall k | 0 <= k < |end.sent| && Closed(end.sent[k])
      ensures k + 1 < |end.sent| && StartsReopened(content, end.sent[k + 1])
    {
      assert ReopenedBehind(content, end, k);
    }
  }
}
