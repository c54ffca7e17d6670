/**
  The messages of an upload: how the loop over the selected rows moves from row to
  row, and which record travels in which message.
*/
module UploadTexts {
  import opened RecordCodec
  import opened UploadBatches
  import opened MsyncTable

  datatype Packet = Packet(flag: Flag, text: string)

  function PacketsOf(flag: Flag, texts: seq<string>): (ps: seq<Packet>)
    ensures |ps| == |texts| && forall i :: 0 <= i < |ps| ==> ps[i] == Packet(flag, texts[i])
  {
    seq(|texts|, i requires 0 <= i < |texts| => Packet(flag, texts[i]))
  }

  lemma EncodingsSnoc(flag: Flag, cs: seq<Contact>, c: Contact)
    ensures Encodings(flag, cs + [c]) == Encodings(flag, cs) + [EncodeContact(flag, c)]
  {
  }

  lemma TextsCons(batch: seq<string>, batches: seq<seq<string>>)
    ensures Texts([batch] + batches) == [Flatten(batch)] + Texts(batches)
  {
  }

  // The records of the batch kept open, and the messages sent and their records.
  datatype Sending = Sending(open: seq<Contact>, texts: seq<string>, groups: seq<seq<Contact>>)

  // The upload loop before record i, with this text kept.
  ghost predicate Progress(flag: Flag, cs: seq<Contact>, i: nat, dataStr: string, s: Sending)
  {
    match s
    case Sending(open, texts, groups) =>
      && i <= |cs|
      && dataStr == Flatten(Encodings(flag, open))
      && texts + Texts(Batches(Encodings(flag, open), Encodings(flag, cs[i..]))) ==
           Texts(Batches([], Encodings(flag, cs)))
      && Flatten(groups) + open == cs[..i]
      && (i > 0 ==> |open| > 0)
  }

  // The batch is sent and the record opens the next one; or it joins the batch.
  function Sends(s: Sending, dataStr: string, c: Contact): Sending {
    Sending([c], s.texts + [dataStr], s.groups + [s.open])
  }

  function Appends(s: Sending, c: Contact): Sending { s.(open := s.open + [c]) }

  lemma ProgressStarts(flag: Flag, cs: seq<Contact>)
    ensures Progress(flag, cs, 0, "", Sending([], [], []))
  {
    assert cs[0..] == cs;
    assert Encodings(flag, []) == [];
    assert [] + Texts(Batches([], Encodings(flag, cs))) == Texts(Batches([], Encodings(flag, cs)));
  }

  lemma NextEncoding(flag: Flag, cs: seq<Contact>, i: nat)
    requires i < |cs|
    ensures Encodings(flag, cs[i..])[0] == EncodeContact(flag, cs[i])
    ensures Encodings(flag, cs[i..])[1..] == Encodings(flag, cs[i + 1..])
    ensures cs[..i + 1] == cs[..i] + [cs[i]]
  {
  }

  lemma GroupsSnoc(groups: seq<seq<Contact>>, open: seq<Contact>)
    ensures Flatten(groups + [open]) == Flatten(groups) + open
  {
    FlattenAppend(groups, [open]);
    assert [open][1..] == [];
  }

  lemma {:induction false} TextsSend(open: seq<string>, rest: seq<string>, done: seq<string>, all: seq<string>)
    requires |rest| > 0 && |Flatten(open)| + |rest[0]| > HUGE_STRING_LENGTH
    requires done + Texts(Batches(open, rest)) == all
    ensures done + [Flatten(open)] + Texts(Batches([rest[0]], rest[1..])) == all
    ensures done + [Flatten(open)] <= all
  {
    var later := Batches([rest[0]], rest[1..]);
    TextsCons(open, later);
    ConcatAssociates(done, [Flatten(open)], Texts(later));
  }

  lemma ProgressSends(flag: Flag, cs: seq<Contact>, i: nat, dataStr: string, s: Sending)
    requires Progress(flag, cs, i, dataStr, s) && i < |cs|
    requires |dataStr| + |EncodeContact(flag, cs[i])| > HUGE_STRING_LENGTH
    ensures Progress(flag, cs, i + 1, EncodeContact(flag, cs[i]), Sends(s, dataStr, cs[i]))
  {
    NextEncoding(flag, cs, i);
    TextsSend(Encodings(flag, s.open), Encodings(flag, cs[i..]), s.texts, Texts(Batches([], Encodings(flag, cs))));
    assert Encodings(flag, [cs[i]]) == [EncodeContact(flag, cs[i])];
    FlattenOne(EncodeContact(flag, cs[i]));
    GroupsSnoc(s.groups, s.open);
  }

  lemma ProgressAppends(flag: Flag, cs: seq<Contact>, i: nat, dataStr: string, s: Sending)
    requires Progress(flag, cs, i, dataStr, s) && i < |cs|
    requires |dataStr| + |EncodeContact(flag, cs[i])| <= HUGE_STRING_LENGTH
    ensures Progress(flag, cs, i + 1, dataStr + EncodeContact(flag, cs[i]), Appends(s, cs[i]))
  {
    NextEncoding(flag, cs, i);
    EncodingsSnoc(flag, s.open, cs[i]);
    FlattenSnoc(Encodings(flag, s.open), EncodeContact(flag, cs[i]));
    ConcatAssociates(Flatten(s.groups), s.open, [cs[i]]);
  }

  lemma ProgressIsPrefix(flag: Flag, cs: seq<Contact>, i: nat, dataStr: string, s: Sending)
    requires Progress(flag, cs, i, dataStr, s)
    ensures s.texts <= Texts(Batches([], Encodings(flag, cs)))
  {
  }

  lemma ProgressEnds(flag: Flag, cs: seq<Contact>, dataStr: string, s: Sending)
    requires Progress(flag, cs, |cs|, dataStr, s) && |cs| > 0
    ensures |dataStr| > 0
    ensures s.texts + [dataStr] == Texts(Batches([], Encodings(flag, cs)))
    ensures Flatten(s.groups + [s.open]) == cs
  {
    assert Encodings(flag, cs[|cs|..]) == [];
    FlattenLonger(Encodings(flag, s.open));
    TextsCons(Encodings(flag, s.open), []);
    assert [Encodings(flag, s.open)] + [] == [Encodings(flag, s.open)];
    assert [dataStr] + Texts([]) == [dataStr];
    GroupsSnoc(s.groups, s.open);
    assert cs[..|cs|] == cs;
  }

  lemma NothingSent(packets: seq<Packet>, contents: seq<seq<Contact>>, flag: Flag)
    ensures packets + PacketsOf(flag, []) == packets && contents + [] == contents
  {
    assert PacketsOf(flag, []) == [];
  }

  lemma PacketsSnoc(before: seq<Packet>, flag: Flag, texts: seq<string>, text: string)
    ensures before + PacketsOf(flag, texts) + [Packet(flag, text)] == before + PacketsOf(flag, texts + [text])
  {
    assert PacketsOf(flag, texts + [text]) == PacketsOf(flag, texts) + [Packet(flag, text)];
  }

  // Every message is the text of the records noted for it.
  predicate AllPacked(packets: seq<Packet>, contents: seq<seq<Contact>>)
    decreases |packets|
  {
    var n := |packets| - 1;
    && |contents| == |packets|
    && (n >= 0 ==>
          && packets[n].text == Flatten(Encodings(packets[n].flag, contents[n]))
          && AllPacked(packets[..n], contents[..n]))
  }

  lemma OneMorePacked(packets: seq<Packet>, contents: seq<seq<Contact>>, flag: Flag, text: string, group: seq<Contact>)
    requires AllPacked(packets, contents) && text == Flatten(Encodings(flag, group))
    ensures AllPacked(packets + [Packet(flag, text)], contents + [group])
  {
    assert (packets + [Packet(flag, text)])[..|packets|] == packets;
    assert (contents + [group])[..|contents|] == contents;
  }

  // The record travelled in one of the messages.
  ghost predicate Carried(packets: seq<Packet>, contents: seq<seq<Contact>>, u: Upload) {
    |contents| == |packets| && exists i :: 0 <= i < |packets| && packets[i].flag == u.flag && u.contact in contents[i]
  }

  lemma CarriedNew(packets: seq<Packet>, contents: seq<seq<Contact>>, flag: Flag, texts: seq<string>,
                   groups: seq<seq<Contact>>, c: Contact)
    requires |contents| == |packets| && |texts| == |groups| && c in Flatten(groups)
    ensures Carried(packets + PacketsOf(flag, texts), contents + groups, Upload(flag, c))
  {
    FlattenMember(groups, c);
    var i :| 0 <= i < |groups| && c in groups[i];
    assert (contents + groups)[|contents| + i] == groups[i];
    assert (packets + PacketsOf(flag, texts))[|contents| + i].flag == flag;
  }

  lemma StillCarried(flag: Flag, cs: seq<Contact>, packets: seq<Packet>, contents: seq<seq<Contact>>,
                     morePackets: seq<Packet>, moreContents: seq<seq<Contact>>)
    requires forall c :: c in cs ==> Carried(packets, contents, Upload(flag, c))
    requires |morePackets| == |moreContents|
    ensures forall c :: c in cs ==> Carried(packets + morePackets, contents + moreContents, Upload(flag, c))
  {
    forall c | c in cs
      ensures Carried(packets + morePackets, contents + moreContents, Upload(flag, c))
    {
      CarriedStill(packets, contents, morePackets, moreContents, Upload(flag, c));
    }
  }

  lemma AllCarried(ins: seq<Contact>, upd: seq<Contact>, del: seq<Contact>, packets: seq<Packet>,
                   contents: seq<seq<Contact>>)
    requires forall c :: c in ins ==> Carried(packets, contents, Upload(InsertFlag, c))
    requires forall c :: c in upd ==> Carried(packets, contents, Upload(UpdateFlag, c))
    requires forall c :: c in del ==> Carried(packets, contents, Upload(DeleteFlag, c))
    ensures forall u :: u in Uploads(InsertFlag, ins) + Uploads(UpdateFlag, upd) + Uploads(DeleteFlag, del) ==>
              Carried(packets, contents, u)
  {
  }

  lemma CarriedStill(packets: seq<Packet>, contents: seq<seq<Contact>>, more: seq<Packet>,
                     groups: seq<seq<Contact>>, u: Upload)
    requires Carried(packets, contents, u) && |more| == |groups|
    ensures Carried(packets + more, contents + groups, u)
  {
    var i :| 0 <= i < |packets| && packets[i].flag == u.flag && u.contact in contents[i];
    assert (packets + more)[i] == packets[i] && (contents + groups)[i] == contents[i];
  }

  ghost predicate IsUploaded(ins: seq<Contact>, upd: seq<Contact>, del: seq<Contact>, uploads: seq<Upload>)
  {
    uploads == Uploads(InsertFlag, ins) + Uploads(UpdateFlag, upd) + Uploads(DeleteFlag, del)
  }

  function PacketsFor(flag: Flag, cs: seq<Contact>): seq<Packet> {
    PacketsOf(flag, Texts(Batches([], Encodings(flag, cs))))
  }

  // All the messages of a session's uploads.
  function AllPackets(ins: seq<Contact>, upd: seq<Contact>, del: seq<Contact>): seq<Packet>
  {
    PacketsFor(InsertFlag, ins) + PacketsFor(UpdateFlag, upd) + PacketsFor(DeleteFlag, del)
  }

  lemma PacketsJoin(before: seq<Packet>, ins: seq<Contact>, upd: seq<Contact>, del: seq<Contact>)
    ensures before + PacketsFor(InsertFlag, ins) + PacketsFor(UpdateFlag, upd) + PacketsFor(DeleteFlag, del) ==
              before + AllPackets(ins, upd, del)
  {
    ConcatAssociates(before, PacketsFor(InsertFlag, ins), PacketsFor(UpdateFlag, upd));
    ConcatAssociates(before, PacketsFor(InsertFlag, ins) + PacketsFor(UpdateFlag, upd), PacketsFor(DeleteFlag, del));
  }
}
