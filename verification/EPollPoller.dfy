/** Registration of channels: include/Channel.h and src/EPollPoller.cc against the interest set that
    the kernel keeps behind epoll_ctl. */
module EPollPoller {

  const READ_EVENT: bv8 := 3   // EPOLLIN | EPOLLPRI
  const WRITE_EVENT: bv8 := 4  // EPOLLOUT

  const NEW := -1
  const ADDED := 1
  const DELETED := 2

  datatype Operation = Add | Mod | Del

  class Channel {
    const fd: int
    var events: bv8
    var index: int

    constructor (fd: int)
      ensures this.fd == fd && events == 0 && index == NEW
    {
      this.fd, events, index := fd, 0, NEW;
    }
  }

  /** An entry of the kernel's interest set. */
  datatype Interest = Interest(events: bv8, channel: Channel)

  /** The five calls of Channel.h that change its events. */
  datatype Change = EnableReading | DisableReading | EnableWriting | DisableWriting | DisableAll

  function Changed(events: bv8, change: Change): bv8 {
    match change
    case EnableReading => events | READ_EVENT
    case DisableReading => events & !READ_EVENT
    case EnableWriting => events | WRITE_EVENT
    case DisableWriting => events & !WRITE_EVENT
    case DisableAll => 0
  }

  /** What isReading, isWriting and isNoneEvent report after each change: it sets or clears its own bits,
      all of them, and leaves the others alone. */
  lemma InterestsIndependent(events: bv8)
    ensures Changed(events, EnableWriting) & READ_EVENT == events & READ_EVENT
    ensures Changed(events, DisableWriting) & READ_EVENT == events & READ_EVENT
    ensures Changed(events, EnableReading) & WRITE_EVENT == events & WRITE_EVENT
    ensures Changed(events, DisableReading) & WRITE_EVENT == events & WRITE_EVENT
    ensures Changed(events, EnableWriting) & WRITE_EVENT == WRITE_EVENT
    ensures Changed(events, DisableWriting) & WRITE_EVENT == 0
    ensures Changed(events, EnableReading) & READ_EVENT == READ_EVENT
    ensures Changed(events, DisableReading) & READ_EVENT == 0
    ensures Changed(events, DisableAll) & (READ_EVENT | WRITE_EVENT) == 0
  {
  }

  /** Of a channel's events the five calls ever set only these. */
  lemma OnlyKnownBits(events: bv8, change: Change)
    requires events & !(READ_EVENT | WRITE_EVENT) == 0
    ensures Changed(events, change) & !(READ_EVENT | WRITE_EVENT) == 0
  {
  }

  class EPollPoller {
    var channels: map<int, Channel>
    var kernel: map<int, Interest>
    var failures: nat                // epoll_ctl calls the kernel refused
    ghost var members: set<Channel>  // the live channels of this loop

    /** The books on one channel: in channels_ unless new, and in the kernel exactly if added.
        Only the `stale` channel's events may be newer than what the kernel knows. */
    ghost predicate ChannelOk(c: Channel, stale: Channel?)
      reads this`channels, this`kernel, c`events, c`index
    {
      && (c.index == NEW || c.index == ADDED || c.index == DELETED)
      && (if c.index == NEW then c.fd !in channels else c.fd in channels && channels[c.fd] == c)
      && (if c.index == ADDED
          then c.fd in kernel && kernel[c.fd].channel == c && (c == stale || kernel[c.fd].events == c.events)
          else c.fd !in kernel)
    }

    ghost predicate FdsDistinct(c: Channel, d: Channel) { c.fd == d.fd ==> c == d }

    /** No two live channels share an fd, every entry belongs to one, and no call has been refused. */
    ghost predicate Consistent(stale: Channel?)
      reads this, members`events, members`index
    {
      && (forall c {:trigger ChannelOk(c, stale)} :: c in members ==> ChannelOk(c, stale))
      && (forall c, d {:trigger FdsDistinct(c, d)} :: c in members && d in members ==> FdsDistinct(c, d))
      && (forall fd :: fd in kernel ==> kernel[fd].channel in members && kernel[fd].channel.fd == fd)
      && (forall fd :: fd in channels ==> channels[fd] in members && channels[fd].fd == fd)
      && failures == 0
    }

    ghost predicate Valid()
      reads this, members`events, members`index
    {
      Consistent(null)
    }

    constructor ()
      ensures Valid() && members == {}
    {
      channels, kernel, failures, members := map[], map[], 0, {};
    }

    /** update: the kernel refuses to add what it has, and to modify or delete what it has not. */
    method Update(op: Operation, channel: Channel)
      modifies this`kernel, this`failures
      ensures var fd, entry := channel.fd, Interest(channel.events, channel);
              if (op == Add) == (fd in old(kernel))
              then kernel == old(kernel) && failures == old(failures) + 1
              else && kernel == (if op == Del then old(kernel) - {fd} else old(kernel)[fd := entry])
                   && failures == old(failures)
    {
      var fd := channel.fd;
      if (op == Add) == (fd in kernel) {
        failures := failures + 1;
      } else if op == Del {
        kernel := kernel - {fd};
      } else {
        kernel := kernel[fd := Interest(channel.events, channel)];
      }
    }

    /** updateChannel. */
    method UpdateChannel(channel: Channel)
      requires channel in members && Consistent(channel)
      modifies this`channels, this`kernel, this`failures, channel`index
      ensures Valid()
      ensures channel.index == if old(channel.index) == ADDED && channel.events == 0 then DELETED else ADDED
    {
      assert ChannelOk(channel, channel);
      if channel.index == NEW || channel.index == DELETED {
        if channel.index == NEW { channels := channels[channel.fd := channel]; }
        channel.index := ADDED;
        Update(Add, channel);
      } else if channel.events == 0 {
        Update(Del, channel);
        channel.index := DELETED;
      } else {
        Update(Mod, channel);
      }
      forall c | c in members ensures ChannelOk(c, null) {
        assert old(ChannelOk(c, channel)) && FdsDistinct(c, channel);
      }
    }

    /** removeChannel. */
    method RemoveChannel(channel: Channel)
      requires Valid() && channel in members
      modifies this`channels, this`kernel, this`failures, channel`index
      ensures Valid() && channel.index == NEW
    {
      assert ChannelOk(channel, null);
      channels := channels - {channel.fd};
      if channel.index == ADDED { Update(Del, channel); }
      channel.index := NEW;
      forall c | c in members ensures ChannelOk(c, null) {
        assert old(ChannelOk(c, null)) && FdsDistinct(c, channel);
      }
    }

    /** enableReading and the rest: change the events, then tell the poller. */
    method Change(channel: Channel, change: Change)
      requires Valid() && channel in members
      modifies this`channels, this`kernel, this`failures, channel`index, channel`events
      ensures Valid() && channel.events == Changed(old(channel.events), change)
      ensures channel.index == if old(channel.index) == ADDED && channel.events == 0 then DELETED else ADDED
    {
      channel.events := Changed(channel.events, change);
      forall c | c in members ensures ChannelOk(c, channel) { assert old(ChannelOk(c, null)); }
      UpdateChannel(channel);
    }

    /** A channel comes to life on an fd that no live channel has. */
    ghost method Join(channel: Channel)
      requires Valid() && channel.index == NEW && forall c :: c in members ==> c.fd != channel.fd
      modifies this`members
      ensures Valid() && members == old(members) + {channel}
    {
      members := members + {channel};
      forall c | c in members ensures ChannelOk(c, null) { if c != channel { assert old(ChannelOk(c, null)); } }
      forall c, d | c in members && d in members ensures FdsDistinct(c, d) {
        if c != channel && d != channel { assert FdsDistinct(c, d); }
      }
    }

    /** A removed channel dies, and its fd may be used again. */
    ghost method Leave(channel: Channel)
      requires Valid() && channel in members && channel.index == NEW
      modifies this`members
      ensures Valid() && members == old(members) - {channel}
    {
      assert ChannelOk(channel, null);
      members := members - {channel};
      forall c | c in members ensures ChannelOk(c, null) { assert old(ChannelOk(c, null)); }
    }
  }
}
