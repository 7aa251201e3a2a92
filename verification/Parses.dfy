/** From the match finder to the encoder: what the finder reports may be coded,
  * and there is always something to code. */
module Parses {
  import opened Words
  import opened Distance
  import LzmaStream
  import Bt4Finder
  import MatchFinder
  import MatchTree
  import Strings

  /** Every reported pair, at its length or any shorter one, is a packet the
    * encoder may choose there: `historySize` is one less than the finder's
    * cyclic buffer, and distances are passed on plus four. */
  lemma ReportedMatchIsPacket(f: MatchTree.Frame, ms: seq<MatchFinder.Match>, k: nat, len: nat, lz: LzmaStream.Lz, dict: nat)
    requires Bt4Finder.Found(f, ms) && k < |ms| && LzmaStream.LEN_MIN <= len <= ms[k].len
    requires |lz.reps| == LzmaStream.NUM_REPS && lz.pos == f.cur
    requires f.cbs == dict + 1 && dict <= MAX_DISTANCE && f.len <= LzmaStream.LEN_MAX
    ensures LzmaStream.ValidPacket(lz, f.d, dict, LzmaStream.Packet(len, ms[k].dist + LzmaStream.NUM_REPS))
  {
    var m := ms[k];
    assert MatchFinder.TrueAt(f, m);
    forall i | f.cur <= i < f.cur + len ensures f.d[i] == f.d[i - (m.dist + 1)] {
      Strings.SameAt(f.d, f.cur - m.dist - 1, f.cur, m.len, i - f.cur);
    }
  }

  /** One literal for every byte. */
  function Literals(n: nat): seq<LzmaStream.Packet> {
    if n == 0 then [] else [LzmaStream.Packet(1, LzmaStream.MARK_LIT)] + Literals(n - 1)
  }

  lemma {:induction false} LiteralsParse(lz: LzmaStream.Lz, data: seq<Byte>, dict: nat)
    requires LzmaStream.ValidLz(lz, data)
    ensures LzmaStream.ValidParse(lz, data, dict, Literals(|data| - lz.pos))
    decreases |data| - lz.pos
  {
    if lz.pos < |data| {
      var p := LzmaStream.Packet(1, LzmaStream.MARK_LIT);
      LzmaStream.AdvanceValid(lz, data, dict, p);
      LiteralsParse(LzmaStream.Advance(lz, p), data, dict);
      assert Literals(|data| - lz.pos)[1..] == Literals(|data| - lz.pos - 1);
    }
  }
}
