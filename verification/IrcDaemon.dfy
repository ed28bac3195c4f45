/** The daemon's globals and the handlers that update them in place. */
module IrcDaemon {
  import opened Irc

  class Daemon {
    const client: array<Client>
    var chList: seq<Channel>
    var currentClientNum: int

    constructor (slots: nat)
      ensures fresh(client) && Current() == Empty(slots)
    {
      client := new Client[slots](_ => NOBODY);
      chList, currentClientNum := [], 0;
      new;
      assert client[..] == Empty(slots).clients;
    }

    ghost function Current(): State
      reads this, client
    {
      State(client[..], chList, currentClientNum)
    }

    lemma FindFrom(channel: string, j: nat)
      requires j <= |chList| && forall k :: 0 <= k < j ==> chList[k].name != channel
      ensures j < |chList| && chList[j].name == channel ==> Find(chList, channel) == j
      ensures j == |chList| ==> Find(chList, channel) == j
    {
    }

    /** A new connection takes the first slot without a descriptor. */
    method Accept(connfd: int) returns (full: bool)
      modifies this, client
      ensures Current() == AfterAccept(old(Current()), connfd)
      ensures full == (FreeSlot(old(client[..])) == client.Length)
    {
      var i := 0;
      while i < client.Length && client[i].fd >= 0
        invariant 0 <= i <= client.Length
        invariant forall k :: 0 <= k < i ==> client[k].fd >= 0
      {
        i := i + 1;
      }
      FreeSlotIs(client[..], i);
      full := i == client.Length;
      if !full {
        client[i] := client[i].(id := i, fd := connfd);
        currentClientNum := currentClientNum + 1;
      }
    }

    method Join(i: nat, channel: string)
      requires i < client.Length
      modifies this, client
      ensures Current() == AfterJoin(old(Current()), i, channel)
    {
      var j := 0;
      while j < |chList|
        invariant 0 <= j <= |chList| && Current() == old(Current())
        invariant forall k :: 0 <= k < j ==> chList[k].name != channel
      {
        FindFrom(channel, j);
        if chList[j].name == channel && client[i].curCh != channel {
          chList := chList[j := chList[j].(users := chList[j].users + 1)];
          client[i] := client[i].(curCh := channel, joined := client[i].joined + {channel});
          return;
        } else if chList[j].name == channel && client[i].curCh == channel {
          return;
        }
        j := j + 1;
      }
      FindFrom(channel, j);
      chList := chList + [Channel(channel, 1, "")];
      client[i] := client[i].(curCh := channel, joined := client[i].joined + {channel});
    }

    method Part(i: nat, channel: string)
      requires i < client.Length
      modifies this, client
      ensures Current() == AfterPart(old(Current()), i, channel)
    {
      if client[i].curCh == channel {
        client[i] := client[i].(curCh := "");
      }
      client[i] := client[i].(joined := client[i].joined - {channel});
      ghost var channels := chList;
      var j := 0;
      while j < |chList| && chList[j].name != channel
        invariant 0 <= j <= |chList|
        invariant forall k :: 0 <= k < j ==> chList[k].name != channel
      {
        j := j + 1;
      }
      FindFrom(channel, j);
      if j < |chList| && chList[j].users > 0 {
        chList := chList[j := chList[j].(users := chList[j].users - 1)];
      }
    }

    method Topic(channel: string, topic: string)
      modifies this
      ensures Current() == AfterTopic(old(Current()), channel, topic)
    {
      var j := 0;
      while j < |chList| && chList[j].name != channel
        invariant 0 <= j <= |chList|
        invariant forall k :: 0 <= k < j ==> chList[k].name != channel
      {
        j := j + 1;
      }
      FindFrom(channel, j);
      if j < |chList| {
        chList := chList[j := chList[j].(topic := topic)];
      }
    }

    method Quit(i: nat)
      requires i < client.Length
      modifies this, client
      ensures Current() == AfterQuit(old(Current()), i)
    {
      client[i] := client[i].(fd := -1);
      client[i] := client[i].(name := "");
      client[i] := client[i].(id := -1);
      client[i] := client[i].(joined := {});
      currentClientNum := currentClientNum - 1;
    }

    /** The inner loop of privmsg: the set of channels of one client, one by one. */
    method WritesTo(j: nat, i: nat, channel: string) returns (written: seq<nat>)
      requires j < client.Length
      ensures written == if channel in client[j].joined && client[j].id != i then [j] else []
    {
      written := [];
      var rest := client[j].joined;
      while rest != {}
        invariant rest <= client[j].joined
        invariant written
               == if channel in client[j].joined && channel !in rest && client[j].id != i then [j] else []
        decreases |rest|
      {
        var it :| it in rest;
        if it == channel && client[j].id != i {
          written := written + [j];
        }
        rest := rest - {it};
      }
    }

    /** The slots a message is written to, in order. */
    method PrivMsg(i: nat, channel: string) returns (written: seq<nat>)
      ensures written == Receivers(client[..], i, channel, client.Length)
    {
      written := [];
      var j := 0;
      while j < client.Length
        invariant 0 <= j <= client.Length && written == Receivers(client[..], i, channel, j)
      {
        if client[j].fd > 0 {
          var w := WritesTo(j, i, channel);
          written := written + w;
        }
        j := j + 1;
      }
    }
  }
}
