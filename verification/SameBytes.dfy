/** Client and server write the same bytes: the array that the client edits in place
    and the list that the server keeps sorted are two forms of one option list. */
module SameBytes {
  import opened Common
  import opened OptionCodec
  import opened Links
  import OptionList
  import opened CoapPdu

  /** addOption for each, in the order given. */
  method ClientMessage(options: seq<Opt>) returns (pdu: Pdu)
    requires Whole(options)
    ensures fresh(pdu) && pdu.Valid() && pdu.opts == Into([], options, |options|)
  {
    hide Insert;
    pdu := new Pdu();
    var i := 0;
    while i < |options|
      invariant 0 <= i <= |options| && fresh(pdu) && fresh(pdu.pdu) && !pdu.constructedFromBuffer
      invariant Tracked(pdu) && pdu.opts == Into([], options, i)
    {
      var _ := Add(pdu, options[i], true);
      i := i + 1;
    }
  }

  method ClientArea(options: seq<Opt>) returns (area: seq<byte>)
    requires Whole(options)
    ensures area == Encode(Into([], options, |options|))
  {
    var pdu := ClientMessage(options);
    area := pdu.pdu[pdu.Start()..pdu.pduLength];
  }

  /** CoAP_AppendOptionToList for each. */
  method ServerList(options: seq<Opt>) returns (list: List<Opt>)
    requires Whole(options)
    ensures fresh(list) && list.Valid() && Ascending(list.items) && list.items == Into([], options, |options|)
  {
    list := new List<Opt>();
    var i := 0;
    while i < |options|
      invariant 0 <= i <= |options| && list.Valid() && fresh(list) && fresh(list.shape.Keys)
      invariant Ascending(list.items) && list.items == Into([], options, i)
    {
      var o := options[i];
      var ok := OptionList.AppendOptionToList(list, o.num, o.val, true);
      i := i + 1;
    }
  }

  /** CoAP_NeededMem4PackOptions for the size, then pack_OptionsFromList. */
  method ServerArea(options: seq<Opt>) returns (area: seq<byte>)
    requires Whole(options) && |Encode(Into([], options, |options|))| < 65536
    ensures area == Encode(Into([], options, |options|))
  {
    hide Encode;
    var list := ServerList(options);
    var size := OptionList.NeededMem(list);
    var dest := new byte[size];
    var written := OptionList.Pack(list, dest, 0);
    area := dest[..];
  }

  /** For every sequence of insertions the two areas are equal, byte for byte. */
  method EncodersAgree(options: seq<Opt>) returns (client: seq<byte>, server: seq<byte>)
    requires Whole(options) && |Encode(Into([], options, |options|))| < 65536
    ensures client == server
    ensures Decode(client) == Some(Area(Into([], options, |options|), None))
  {
    client := ClientArea(options);
    server := ServerArea(options);
    IntoAscending([], options, |options|);
    DecodeEncode(Into([], options, |options|), None);
    assert client + Tail(None) == client;
  }
}
