/** parse_mss_option: the walk over a SYN's TCP options for the peer's maximum segment size. */
module MssParser {
  import opened SeqArith
  import opened Bytes
  import Wire

  /** Section 4.2.2.6 of RFC 1122: what to assume when the SYN carries no usable MSS option. */
  const DEFAULT_MSS: u16 := 536

  function OrDefault(mss: u16): (r: u16)
    ensures r > 0
  {
    if mss != 0 then mss else DEFAULT_MSS
  }

  /** What the walk returns for the options from here on. */
  function ParseMss(opt: seq<u8>): (r: u16)
    ensures r > 0
  {
    if opt == [] || opt[0] == 0 then DEFAULT_MSS
    else if opt[0] == 1 then ParseMss(opt[1..])
    else if |opt| < 2 || opt[1] < 2 || opt[1] > |opt| then DEFAULT_MSS
    else if opt[0] == 2 && opt[1] == 4 then OrDefault(Be16(opt[2], opt[3]))
    else ParseMss(opt[opt[1]..])
  }

  method ParseMssOption(opt: seq<u8>) returns (mss: u16)
    ensures mss == ParseMss(opt) && mss > 0
  {
    var i := 0;
    while i < |opt|
      invariant 0 <= i <= |opt| && ParseMss(opt[i..]) == ParseMss(opt)
    {
      var kind := opt[i];
      if kind == 0 {
        break;
      }
      if kind == 1 {
        assert opt[i..][1..] == opt[i + 1..];
        i := i + 1;
        continue;
      }
      if i + 1 >= |opt| || opt[i + 1] < 2 || i + opt[i + 1] > |opt| {
        break;
      }
      if kind == 2 && opt[i + 1] == 4 {
        mss := OrDefault(Be16(opt[i + 2], opt[i + 3]));
        return;
      }
      assert opt[i..][opt[i + 1]..] == opt[i + opt[i + 1]..];
      i := i + opt[i + 1];
    }
    mss := DEFAULT_MSS;
  }

  /** The options a peer may write before the end of the list. */
  datatype TcpOption = Nop | Mss(value: u16) | Other(kind: u8, body: seq<u8>) {
    predicate Valid() {
      Other? ==> kind > 1 && |body| + 2 < 0x100 && !(kind == 2 && |body| == 2)
    }
    function Encode(): (b: seq<u8>)
      requires Valid()
      ensures b != []
    {
      match this
      case Nop => [1]
      case Mss(value) => [2, 4, Hi(value), Lo(value)]
      case Other(kind, body) => [kind, |body| + 2] + body
    }
  }

  predicate AllValid(opts: seq<TcpOption>) { forall o | o in opts :: o.Valid() }

  function EncodeAll(opts: seq<TcpOption>): seq<u8>
    requires AllValid(opts)
  {
    if opts == [] then [] else opts[0].Encode() + EncodeAll(opts[1..])
  }

  /** The first MSS option decides; without one, the default. */
  function FirstMss(opts: seq<TcpOption>): u16 {
    if opts == [] then DEFAULT_MSS
    else if opts[0].Mss? then OrDefault(opts[0].value)
    else FirstMss(opts[1..])
  }

  /** One turn of the walk over a well-formed option. */
  lemma ParseOne(o: TcpOption, rest: seq<u8>)
    requires o.Valid()
    ensures ParseMss(o.Encode() + rest) == if o.Mss? then OrDefault(o.value) else ParseMss(rest)
  {
    var all := o.Encode() + rest;
    assert all[|o.Encode()|..] == rest;
    if o.Other? {
      assert all[0] == o.kind && all[1] == |o.body| + 2;
    }
  }

  /** The walk finds the first MSS option behind any padding and other options, aligned or not,
      whether the list runs to the end of the header or stops at an end-of-list octet. */
  lemma {:induction false} ParsesEncoded(opts: seq<TcpOption>, tail: seq<u8>)
    requires AllValid(opts) && (tail == [] || tail[0] == 0)
    ensures ParseMss(EncodeAll(opts) + tail) == FirstMss(opts)
  {
    if opts == [] {
      assert EncodeAll(opts) + tail == tail;
    } else {
      hide ParseMss;
      var rest := EncodeAll(opts[1..]) + tail;
      assert opts[0] in opts;
      assert EncodeAll(opts) + tail == opts[0].Encode() + rest;
      ParseOne(opts[0], rest);
      ParsesEncoded(opts[1..], tail);
    }
  }

  /** The option build_segment appends to a SYN-ACK is one the walk reads back. */
  lemma OwnOptionParses(mss: u16)
    requires mss != 0
    ensures ParseMss(Wire.MssOption(mss)) == mss
  {
    ParsesEncoded([Mss(mss)], []);
    assert EncodeAll([Mss(mss)]) + [] == Wire.MssOption(mss);
  }
}
