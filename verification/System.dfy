/**
 The whole path from the client's frames to the XMPP server, over every run of a connection.
 */
module System {
  import opened Bytes
  import opened FrameCodec
  import opened Reassembly
  import opened Fragmentation
  import opened Connection
  import opened Consumption
  import opened Forwarding

  lemma PrefixDecodes(limits: Limits, b: bytes, whole: bytes)
    requires b <= whole
    ensures Decode(limits, Idle, b).events <= Decode(limits, Idle, whole).events
  {
    var x := whole[|b|..];
    assert whole == b + x;
    DecodeAppend(limits, Idle, b, x);
  }

  /**
   A client that follows the RFC on the wire, whatever its frames, limits and reads: when what the frame
   buffer let in is a beginning of its encoded frames, what was taken is a beginning of what those frames
   complete before the first violation, the texts among it are what the manager met, and what reached the
   XMPP server is a beginning of what the manager accepted.
   */
  lemma FromFramesToServer(config: Config, happenings: seq<Happening>, list: seq<Sent>)
    requires config.retest && AllSendable(list)
    requires RunAll(config, Initial, happenings).history.admitted <= Stream(list)
    ensures var h := RunAll(config, Initial, happenings).history; var fs := FramesOf(list);
      && h.consumed <= Completed(config.limits, fs[..Legal(config.limits, fs)])
      && PayloadsOf(h.delivered) == Texts(h.consumed)
      && h.upstream <= Accepted(h.delivered)
  {
    var h := RunAll(config, Initial, happenings).history;
    TakesTheStreamInOrder(config, happenings);
    UpstreamConservation(config, happenings);
    PrefixDecodes(config.limits, h.admitted, Stream(list));
    StreamDecodes(config.limits, list);
  }

  /** Without a frame limit that is every byte read. */
  lemma UnlimitedFramesToServer(config: Config, happenings: seq<Happening>, list: seq<Sent>)
    requires config.retest && AllSendable(list) && config.limits.frame == 0
    requires RunAll(config, Initial, happenings).history.offered <= Stream(list)
    ensures var h := RunAll(config, Initial, happenings).history; var fs := FramesOf(list);
      && h.consumed <= Completed(config.limits, fs[..Legal(config.limits, fs)])
      && PayloadsOf(h.delivered) == Texts(h.consumed)
      && h.upstream <= Accepted(h.delivered)
  {
    TakesTheStreamInOrder(config, happenings);
    FromFramesToServer(config, happenings, list);
  }
}
