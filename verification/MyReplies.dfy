/** Exactly which packets the query decoder completes on, and with what. */
module MyReplies {
  import opened Bytes
  import opened Machine
  import opened MyFields
  import opened MyPackets
  import opened MyFeed
  import opened MyCodec
  import opened MyStream
  import opened MyAccepted
  import opened MyResponses

  // ---- what has been told before the end ----

  /** The column count announced by the first payload. */
  function Columns(cs: seq<Content>): nat {
    if cs != [] && cs[0].CountContent? then cs[0].n else 0
  }

  /** A row of the width announced that is not taken for the end of the rows. */
  predicate RowFits(c: Content, n: nat) {
    && c.RowContent? && |c.cells| == n && ContentBytes(c) != []
    && (ContentBytes(c)[0] == 0xfe ==> |ContentBytes(c)| >= 0xff_ffff)
  }

  /** The i-th payload: a count that does not look like an OK packet, the definitions, and rows. */
  predicate InPlace(c: Content, i: nat, n: nat) {
    && ContentOk(c)
    && if i == 0 then c.CountContent? && c.e[0] != 0
       else if i <= n then c.DefinitionContent?
       else RowFits(c, n)
  }

  predicate Good(cs: seq<Content>) {
    forall i :: 0 <= i < |cs| ==> InPlace(cs[i], i, Columns(cs))
  }

  /** The name a definition holds. */
  function NameOf(c: Content): bytes {
    var v := ContentValue(c);
    if v.Definition? then v.def.name else []
  }

  function RowOf(c: Content): Row {
    if c.RowContent? then RowValue(c.cells) else []
  }

  /** The names and the rows are those of the payloads, of `n` columns. */
  predicate Reads(cs: seq<Content>, n: nat, def: seq<bytes>, result: seq<Row>) {
    && (if cs == [] then def == [] && result == []
        else |cs| == 1 + |def| + |result| && if |cs| <= n then result == [] else |def| == n)
    && (forall i :: 0 <= i < |def| ==> def[i] == NameOf(cs[1 + i]))
    && (forall i :: 0 <= i < |result| ==> result[i] == RowOf(cs[1 + |def| + i]))
  }

  predicate Told(cs: seq<Content>, g: Progress) {
    g.columnCount == Columns(cs) && Reads(cs, g.columnCount, g.def, g.result)
  }

  /** The decoder between payloads. */
  predicate Going(cs: seq<Content>, g: Progress) {
    && Told(cs, g) && g.ec == NoError
    && g.phase == if cs == [] then FirstPayload else if g.result == [] then Definitions else RowsOrEnd
  }

  /** The parser for a content is the one chosen for its payload. */
  predicate Chosen(g: Progress, c: Content) {
    ContentBytes(c) != [] && Enter(Entered(g), |ContentBytes(c)|, ContentBytes(c)[0]) == Go(ControlOf(c))
  }

  lemma WholeParsed(g: Progress, payload: bytes, control: Control)
    requires payload != [] && Enter(g, |payload|, payload[0]) == Go(control)
    ensures Whole(g, payload) == Parsed(control, payload)
  {
    WholeRun(g, payload);
  }

  /** A content that its parser is chosen for is decoded to what it means. */
  lemma ChosenTaken(g: Progress, id: nat, c: Content)
    requires id < 256 && ContentOk(c) && Chosen(g, c) && |ContentBytes(c)| < TWO_24
    ensures TakePacket(g, id, Packet(id, ContentBytes(c))) ==
            var g' := Absorb(Entered(g), ContentValue(c));
            if g'.phase == Finished then Stopped(g', []) else Waiting(g', (id + 1) % 256)
  {
    WholeParsed(Entered(g), ContentBytes(c), ControlOf(c));
    ContentAccepts(c);
  }

  /** And a packet that does not fail holds a content that its parser is chosen for. */
  lemma TakenChosen(g: Progress, id: nat, p: Packet) returns (c: Content)
    requires g.phase != Finished && PacketFits(p) && !TakePacket(g, id, p).Dropped?
    ensures p == Packet(id, ContentBytes(c)) && ContentOk(c) && Chosen(g, c)
  {
    var g1 := Entered(g);
    var next := Enter(g1, |p.payload|, p.payload[0]);
    WholeRun(g1, p.payload);
    var v := Whole(g1, p.payload).v;
    c := ContentTaken(next.c, p.payload, v);
  }

  /** The first byte of a row. */
  lemma RowFirst(cells: seq<AnyCell>)
    requires cells != [] && RowOk(cells)
    ensures RowBytes(cells) != [] && RowBytes(cells)[0] != 0xff
  {
    var cell, more := cells[0], RowBytes(cells[1..]);
    if cell.AnyText? {
      Assoc(cell.len, cell.text, more);
      assert (cell.len + (cell.text + more))[0] == cell.len[0];
    }
  }

  /** Which contents that do not end the response the decoder chooses the parser for. */
  lemma ChosenInPlace(cs: seq<Content>, g: Progress, c: Content)
    requires Good(cs) && Going(cs, g) && ContentOk(c) && !c.ErrContent? && !c.OkContent? && ContentBytes(c) != []
    ensures Chosen(g, c) <==> InPlace(c, |cs|, Columns(cs + [c]))
  {
    if c.RowContent? {
      RowFirst(c.cells);
    }
  }

  lemma GoodMore(cs: seq<Content>, c: Content)
    requires Good(cs) && InPlace(c, |cs|, Columns(cs + [c]))
    ensures Good(cs + [c]) && (cs != [] ==> Columns(cs + [c]) == Columns(cs))
  {
    var cs' := cs + [c];
    assert cs != [] ==> cs'[0] == cs[0];
    assert forall i :: 0 <= i < |cs| ==> cs'[i] == cs[i];
    assert cs'[|cs|] == c;
  }

  lemma NameMore(cs: seq<Content>, n: nat, def: seq<bytes>, c: Content)
    requires cs != [] && |cs| <= n && Reads(cs, n, def, [])
    ensures Reads(cs + [c], n, def + [NameOf(c)], [])
  {
    var cs', def' := cs + [c], def + [NameOf(c)];
    forall i | 0 <= i < |def'|
      ensures def'[i] == NameOf(cs'[1 + i])
    {
      if i < |def| {
        assert cs'[1 + i] == cs[1 + i];
      }
    }
  }

  lemma RowMore(cs: seq<Content>, n: nat, def: seq<bytes>, result: seq<Row>, c: Content)
    requires cs != [] && |cs| > n && Reads(cs, n, def, result)
    ensures Reads(cs + [c], n, def, result + [RowOf(c)])
  {
    var cs', result' := cs + [c], result + [RowOf(c)];
    forall i | 0 <= i < |def|
      ensures def[i] == NameOf(cs'[1 + i])
    {
      assert cs'[1 + i] == cs[1 + i];
    }
    forall i | 0 <= i < |result'|
      ensures result'[i] == RowOf(cs'[1 + |def| + i])
    {
      if i < |result| {
        assert cs'[1 + |def| + i] == cs[1 + |def| + i];
      }
    }
  }

  /** What one payload more adds. */
  lemma AbsorbMore(cs: seq<Content>, g: Progress, c: Content)
    requires Going(cs, g) && InPlace(c, |cs|, Columns(cs + [c])) && (cs != [] ==> Columns(cs + [c]) == Columns(cs))
    ensures var g' := Absorb(Entered(g), ContentValue(c));
            && g'.ec == NoError && g'.columnCount == Columns(cs + [c])
            && if cs == [] then g' == Progress(Definitions, c.n, [], [], NoError)
               else if |cs| <= Columns(cs) then g.result == [] && g' == g.(def := g.def + [NameOf(c)])
               else g' == g.(result := g.result + [RowOf(c)], phase := RowsOrEnd)
  {
  }

  /** One payload more. */
  lemma OneMore(cs: seq<Content>, g: Progress, c: Content)
    requires Good(cs) && Going(cs, g) && InPlace(c, |cs|, Columns(cs + [c]))
    ensures Good(cs + [c]) && Going(cs + [c], Absorb(Entered(g), ContentValue(c)))
  {
    GoodMore(cs, c);
    AbsorbMore(cs, g, c);
    if cs != [] {
      if |cs| <= Columns(cs) {
        NameMore(cs, g.columnCount, g.def, c);
      } else {
        RowMore(cs, g.columnCount, g.def, g.result, c);
      }
    }
  }

  /** The payload that ends the response, and when it may. */
  predicate ClosedBy(cs: seq<Content>, last: Content) {
    && ContentOk(last) && (last.ErrContent? || last.OkContent?)
    && if cs == [] then last.OkContent? ==> last.header == 0
       else |cs| > Columns(cs) && (last.OkContent? ==> last.header == 0xfe && |ContentBytes(last)| < 0xff_ffff)
  }

  function CodeOf(last: Content): ErrorCode {
    if last.ErrContent? then ServerError(last.code) else NoError
  }

  lemma EndFirst(c: Content)
    requires c.ErrContent? || c.OkContent?
    ensures ContentBytes(c) != [] && ContentBytes(c)[0] == if c.ErrContent? then 0xff else c.header
  {
  }

  /** Which ends the decoder chooses the parser for. */
  lemma ChosenEnd(cs: seq<Content>, g: Progress, c: Content)
    requires Good(cs) && Going(cs, g) && ContentOk(c) && (c.ErrContent? || c.OkContent?)
    ensures Chosen(g, c) <==> ClosedBy(cs, c)
  {
    EndFirst(c);
  }

  // ---- the responses ----

  /** The packets, numbered from `id` on, carry these contents. */
  predicate Carries(id: nat, ps: seq<Packet>, cs: seq<Content>) {
    && |ps| == |cs|
    && forall i :: 0 <= i < |ps| ==> ps[i] == Packet(Nth(id, i), ContentBytes(cs[i]))
  }

  lemma CarriesNext(id: nat, ps: seq<Packet>, cs: seq<Content>)
    requires id < 256 && ps != [] && cs != []
    ensures Carries(id, ps, cs) <==>
            ps[0] == Packet(id, ContentBytes(cs[0])) && Carries((id + 1) % 256, ps[1..], cs[1..])
  {
    NthNext(id, 0);
    if Carries(id, ps, cs) {
      forall i | 0 <= i < |ps[1..]|
        ensures ps[1..][i] == Packet(Nth((id + 1) % 256, i), ContentBytes(cs[1..][i]))
      {
        NthNext(id, i);
        assert ps[1..][i] == ps[i + 1];
      }
    }
    if ps[0] == Packet(id, ContentBytes(cs[0])) && Carries((id + 1) % 256, ps[1..], cs[1..]) {
      forall i | 0 <= i < |ps|
        ensures ps[i] == Packet(Nth(id, i), ContentBytes(cs[i]))
      {
        if i > 0 {
          NthNext(id, i - 1);
          assert ps[i] == ps[1..][i - 1];
        }
      }
    }
  }

  /** The packets are a response that means `g`. */
  predicate IsReply(id: nat, ps: seq<Packet>, cs: seq<Content>, last: Content, g: Progress) {
    && Good(cs) && ClosedBy(cs, last) && Carries(id, ps, cs + [last])
    && Told(cs, g) && g.phase == Finished && g.ec == CodeOf(last)
  }

  lemma LastTaken(cs: seq<Content>, g0: Progress, id: nat, ps: seq<Packet>, g: Progress, c: Content)
    requires Good(cs) && Going(cs, g0) && PacketsFit(ps) && id < 256 && Follow(g0, id, ps) == Stopped(g, [])
    requires ps[0] == Packet(id, ContentBytes(c)) && ContentOk(c) && Chosen(g0, c) && (c.ErrContent? || c.OkContent?)
    ensures ClosedBy(cs, c) && ps == [Packet(id, ContentBytes(c))]
    ensures g == Entered(g0).(ec := CodeOf(c), phase := Finished)
  {
    ChosenEnd(cs, g0, c);
    ChosenTaken(g0, id, c);
    assert ps[1..] == [];
  }

  lemma OneTaken(cs: seq<Content>, g0: Progress, id: nat, ps: seq<Packet>, c: Content)
    requires Good(cs) && Going(cs, g0) && PacketsFit(ps) && id < 256 && ps != []
    requires ps[0] == Packet(id, ContentBytes(c)) && ContentOk(c) && Chosen(g0, c) && !c.ErrContent? && !c.OkContent?
    ensures var g1 := Absorb(Entered(g0), ContentValue(c));
            && Good(cs + [c]) && Going(cs + [c], g1)
            && Follow(g0, id, ps) == Follow(g1, (id + 1) % 256, ps[1..])
  {
    assert PacketFits(ps[0]);
    ChosenInPlace(cs, g0, c);
    OneMore(cs, g0, c);
    ChosenTaken(g0, id, c);
  }

  lemma CarriesMore(id: nat, ps: seq<Packet>, c: Content, more: seq<Content>, last: Content)
    requires id < 256 && ps != [] && ps[0] == Packet(id, ContentBytes(c))
    requires Carries((id + 1) % 256, ps[1..], more + [last])
    ensures Carries(id, ps, [c] + more + [last])
  {
    assert ([c] + more + [last])[1..] == more + [last];
    CarriesNext(id, ps, [c] + more + [last]);
  }

  lemma CarriesOne(id: nat, c: Content)
    requires id < 256
    ensures Carries(id, [Packet(id, ContentBytes(c))], [] + [c])
  {
    NthNext(id, 0);
  }

  /** The end changes nothing of what has been told. */
  lemma EndTold(cs: seq<Content>, g0: Progress, last: Content)
    requires Going(cs, g0)
    ensures Told(cs, Entered(g0).(ec := CodeOf(last), phase := Finished))
  {
  }

  /** After `cs`, the packets are the rest of a response that means `g`. */
  predicate IsRest(cs: seq<Content>, id: nat, ps: seq<Packet>, more: seq<Content>, last: Content, g: Progress) {
    && Good(cs + more) && ClosedBy(cs + more, last) && Carries(id, ps, more + [last])
    && Told(cs + more, g) && g.phase == Finished && g.ec == CodeOf(last)
  }

  lemma RestEnds(cs: seq<Content>, g0: Progress, id: nat, ps: seq<Packet>, g: Progress, c: Content)
    requires Good(cs) && Going(cs, g0) && PacketsFit(ps) && id < 256 && Follow(g0, id, ps) == Stopped(g, [])
    requires ps != [] && ps[0] == Packet(id, ContentBytes(c)) && ContentOk(c) && Chosen(g0, c)
    requires (c.ErrContent? || c.OkContent?)
    ensures IsRest(cs, id, ps, [], c, g)
  {
    LastTaken(cs, g0, id, ps, g, c);
    EndTold(cs, g0, c);
    CarriesOne(id, c);
    assert cs + [] == cs;
  }

  lemma RestNext(cs: seq<Content>, id: nat, ps: seq<Packet>, c: Content, more: seq<Content>, last: Content, g: Progress)
    requires id < 256 && ps != [] && ps[0] == Packet(id, ContentBytes(c))
    requires IsRest(cs + [c], (id + 1) % 256, ps[1..], more, last, g)
    ensures IsRest(cs, id, ps, [c] + more, last, g)
  {
    CarriesMore(id, ps, c, more, last);
    assert cs + ([c] + more) == cs + [c] + more;
  }

  /** From what has been told on, whatever the decoder pauses on is the rest of such a response. */
  lemma {:induction false} ReplyTaken(cs: seq<Content>, g0: Progress, id: nat, ps: seq<Packet>, g: Progress)
    returns (more: seq<Content>, last: Content)
    requires Good(cs) && Going(cs, g0) && PacketsFit(ps) && id < 256 && Follow(g0, id, ps) == Stopped(g, [])
    ensures IsRest(cs, id, ps, more, last, g)
    decreases |ps|
  {
    var c := FirstContent(cs, g0, id, ps, g);
    if c.ErrContent? || c.OkContent? {
      RestEnds(cs, g0, id, ps, g, c);
      more, last := [], c;
    } else {
      OneTaken(cs, g0, id, ps, c);
      more, last := ReplyTaken(cs + [c], Absorb(Entered(g0), ContentValue(c)), (id + 1) % 256, ps[1..], g);
      RestNext(cs, id, ps, c, more, last, g);
      more := [c] + more;
    }
  }

  lemma FirstContent(cs: seq<Content>, g0: Progress, id: nat, ps: seq<Packet>, g: Progress) returns (c: Content)
    requires Going(cs, g0) && PacketsFit(ps) && id < 256 && Follow(g0, id, ps) == Stopped(g, [])
    ensures ps != [] && ps[0] == Packet(id, ContentBytes(c)) && ContentOk(c) && Chosen(g0, c)
  {
    assert PacketFits(ps[0]);
    c := TakenChosen(g0, id, ps[0]);
  }

  lemma SameColumns(cs: seq<Content>, more: seq<Content>)
    requires more != []
    ensures Columns(cs + [more[0]]) == Columns(cs + more)
    ensures cs + more == cs + [more[0]] + more[1..]
  {
    assert (cs + more)[0] == (cs + [more[0]])[0];
  }

  lemma GoodPrefix(cs: seq<Content>, more: seq<Content>)
    requires Good(cs + more) && more != []
    ensures InPlace(more[0], |cs|, Columns(cs + [more[0]]))
  {
    SameColumns(cs, more);
    var all, i := cs + more, |cs|;
    assert InPlace(all[i], i, Columns(all));
  }

  /** And on the rest of such a response it pauses. */
  lemma {:induction false} ReplyFollowed(cs: seq<Content>, g0: Progress, id: nat, ps: seq<Packet>,
        more: seq<Content>, last: Content, g: Progress)
    requires Good(cs) && Going(cs, g0) && PacketsFit(ps) && id < 256
    requires IsRest(cs, id, ps, more, last, g)
    ensures Follow(g0, id, ps) == Stopped(g, [])
    decreases |more|
  {
    assert (more + [last])[0] == if more == [] then last else more[0];
    CarriesNext(id, ps, more + [last]);
    assert PacketFits(ps[0]);
    if more == [] {
      assert cs + more == cs;
      LastFollowed(cs, g0, id, ps, last, g);
    } else {
      var c := more[0];
      GoodPrefix(cs, more);
      SameColumns(cs, more);
      ChosenInPlace(cs, g0, c);
      OneTaken(cs, g0, id, ps, c);
      assert (more + [last])[1..] == more[1..] + [last];
      ReplyFollowed(cs + [c], Absorb(Entered(g0), ContentValue(c)), (id + 1) % 256, ps[1..], more[1..], last, g);
    }
  }

  lemma LastFollowed(cs: seq<Content>, g0: Progress, id: nat, ps: seq<Packet>, last: Content, g: Progress)
    requires Good(cs) && Going(cs, g0) && PacketsFit(ps) && id < 256 && |ps| == 1
    requires ps[0] == Packet(id, ContentBytes(last))
    requires ClosedBy(cs, last) && Told(cs, g) && g.phase == Finished && g.ec == CodeOf(last)
    ensures Follow(g0, id, ps) == Stopped(g, [])
  {
    assert PacketFits(ps[0]) && ps[1..] == [];
    ChosenEnd(cs, g0, last);
    ChosenTaken(g0, id, last);
    SameTold(cs, g0, g);
  }

  lemma SameTold(cs: seq<Content>, g: Progress, h: Progress)
    requires Told(cs, g) && Told(cs, h)
    ensures g.columnCount == h.columnCount && g.def == h.def && g.result == h.result
  {
  }

  /**
   The packets the decoder pauses after, exactly, among all lists of packets: numbered in sequence, an error or an
   OK packet alone, or a column count, as many definitions, rows of that width, and an error or the end of the rows;
   with the names, the rows and the error they hold.  Integers and lengths may have any width.
   */
  lemma RepliesExactly(id: nat, ps: seq<Packet>, g: Progress)
    requires PacketsFit(ps) && id < 256
    ensures Follow(NOTHING, id, ps) == Stopped(g, []) <==> exists cs, last :: IsReply(id, ps, cs, last, g)
  {
    if Follow(NOTHING, id, ps) == Stopped(g, []) {
      var cs, last := ReplyTaken([], NOTHING, id, ps, g);
      assert [] + cs == cs;
      assert IsReply(id, ps, cs, last, g);
    }
    forall cs, last | IsReply(id, ps, cs, last, g)
      ensures Follow(NOTHING, id, ps) == Stopped(g, [])
    {
      assert [] + cs == cs;
      ReplyFollowed([], NOTHING, id, ps, cs, last, g);
    }
  }

  /**
   So on any bytes: whatever the decoder pauses on begins with such packets, and the pause comes at the end of the
   last one.
   */
  lemma PausesExactly(id: nat, bs: bytes, g: Progress, rest: bytes)
    requires id < 256
    ensures Feed(At(NOTHING, id), bs) == Paused(g, rest) <==>
            exists ps, cs, last :: PacketsFit(ps) && bs == WireAll(ps) + rest && IsReply(id, ps, cs, last, g)
  {
    forall ps, cs, last | PacketsFit(ps) && bs == WireAll(ps) + rest && IsReply(id, ps, cs, last, g)
      ensures Feed(At(NOTHING, id), bs) == Paused(g, rest)
    {
      RepliesExactly(id, ps, g);
      FeedFollows(NOTHING, id, ps, rest);
      assert WireAll([]) + rest == rest;
    }
    if Feed(At(NOTHING, id), bs) == Paused(g, rest) {
      var ps, tail := Refines(NOTHING, id, bs);
      var used := UsedPackets(id, ps, tail, g);
      RepliesExactly(id, used, g);
    }
  }

  /** The packets up to the one that ends the response. */
  lemma UsedPackets(id: nat, ps: seq<Packet>, tail: bytes, g: Progress) returns (used: seq<Packet>)
    requires PacketsFit(ps) && id < 256 && Follow(NOTHING, id, ps).Stopped? && Follow(NOTHING, id, ps).g == g
    ensures PacketsFit(used) && Follow(NOTHING, id, used) == Stopped(g, [])
    ensures WireAll(ps) + tail == WireAll(used) + (WireAll(Follow(NOTHING, id, ps).left) + tail)
  {
    used := UsedFrom(NOTHING, id, ps, tail);
  }

  lemma {:induction false} UsedFrom(g0: Progress, id: nat, ps: seq<Packet>, tail: bytes) returns (used: seq<Packet>)
    requires PacketsFit(ps) && Follow(g0, id, ps).Stopped?
    ensures PacketsFit(used) && Follow(g0, id, used) == Stopped(Follow(g0, id, ps).g, [])
    ensures WireAll(ps) + tail == WireAll(used) + (WireAll(Follow(g0, id, ps).left) + tail)
    decreases |ps|
  {
    var p, more := ps[0], ps[1..];
    Assoc(Wire(p), WireAll(more), tail);
    match TakePacket(g0, id, p)
    case Waiting(g1, id1) =>
      var used1 := UsedFrom(g1, id1, more, tail);
      used := [p] + used1;
      assert used[1..] == used1;
      Assoc(Wire(p), WireAll(used1), WireAll(Follow(g0, id, ps).left) + tail);
    case Stopped(_, _) =>
      used := [p];
      assert used[1..] == [] && Wire(p) + [] == Wire(p);
  }
}
