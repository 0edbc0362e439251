/** The session's channel list and its listeners' queues, updated in place as ChannelIds says. */
module ChannelTables {
  import opened Bytes
  import opened LinkedLists
  import opened ChannelIds

  class Channels {
    var nextChannel: U32
    const list: LinkedList<U32>
    var queues: seq<seq<U32>>

    constructor ()
      ensures Valid() && View() == Table(0, [], [])
      ensures fresh(list)
    {
      nextChannel, queues := 0, [];
      list := new LinkedList<U32>();
    }

    ghost predicate Valid()
      reads this, list, list.nodes
    {
      list.Valid()
    }

    ghost function View(): Table
      reads this, list, list.nodes
    {
      Table(nextChannel, list.Values(), queues)
    }

    method NextId() returns (id: U32)
      requires Valid()
      modifies `nextChannel
      ensures Valid() && id == ChannelIds.NextId(old(View())) && View() == Allocated(old(View()))
    {
      id := nextChannel;
      var channel := list.head;
      ghost var i, ids := 0, list.Values();
      while channel != null
        invariant i <= |ids| && channel == (if i == |ids| then null else list.nodes[i])
        invariant Largest(id, ids[i..]) == Largest(nextChannel, ids)
        decreases |ids| - i
      {
        assert list.Linked(i);
        assert ids[i..][0] == channel.data && ids[i..][1..] == ids[i + 1..];
        if channel.data > id { id := channel.data; }
        channel := channel.next;
        i := i + 1;
      }
      nextChannel := Add32(id, 1);
    }

    /** Finds the first linked channel with an id. */
    method Locate(id: U32) returns (channel: Node?<U32>, ghost at: nat)
      requires Valid()
      ensures channel == null <==> id !in list.Values()
      ensures channel != null ==>
        at < |list.nodes| && list.nodes[at] == channel && channel.data == id && id !in list.Values()[..at]
    {
      channel, at := list.head, 0;
      while channel != null
        invariant at <= |list.nodes| && channel == (if at == |list.nodes| then null else list.nodes[at])
        invariant id !in list.Values()[..at]
        decreases |list.nodes| - at
      {
        assert list.Linked(at);
        if channel.data == id { return; }
        channel := channel.next;
        at := at + 1;
      }
      assert list.Values()[..at] == list.Values();
    }

    method OpenChannel() returns (id: U32)
      requires Valid()
      modifies this, list, list.nodes
      ensures Valid() && View() == Step(old(View()), Open) && id == ChannelIds.NextId(old(View()))
    {
      id := NextId();
      list.Append(id);
    }

    method QueueForward(l: nat) returns (id: U32)
      requires Valid() && l < |queues|
      modifies this
      ensures Valid() && View() == Step(old(View()), Queue(l))
    {
      id := NextId();
      queues := queues[l := queues[l] + [id]];
    }

    method ForwardAccept(l: nat) returns (accepted: bool)
      requires Valid() && l < |queues|
      modifies this, list, list.nodes
      ensures Valid() && View() == Step(old(View()), Accept(l))
      ensures accepted == (old(queues)[l] != [])
    {
      accepted := queues[l] != [];
      if accepted {
        var id := queues[l][0];
        queues := queues[l := queues[l][1..]];
        list.PushFront(id);
      }
    }

    /** Takes one channel out of the list. */
    method Remove(channel: Node<U32>, ghost at: nat)
      requires Valid() && at < |list.nodes| && list.nodes[at] == channel && channel.data !in list.Values()[..at]
      modifies list, list.nodes
      ensures Valid() && nextChannel == old(nextChannel) && queues == old(queues)
      ensures list.Values() == Drop(old(list.Values()), old(channel.data))
    {
      DropAt(list.Values(), channel.data, at);
      list.Unlink(channel, at);
    }

    /** Unlinks the channel with an id, if it is linked. */
    method FreeChannel(id: U32)
      requires Valid()
      modifies list, list.nodes
      ensures Valid() && View() == Step(old(View()), Free(id))
    {
      ghost var ids := list.Values();
      var channel, at := Locate(id);
      if channel == null {
        assert ids[..|ids|] == ids;
        DropAt(ids, id, |ids|);
      } else {
        Remove(channel, at);
      }
    }
  }
}
