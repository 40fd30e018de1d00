/** The webhook publisher object: its queue reference, its wake channel and the methods that
    publish, resize and drain. Each method runs here without interference; WebhookProtocol says
    what remains true when they interleave. */
module WebhookPublisher {
  import opened Channels
  import opened WebhookProtocol

  datatype Config = Config(
    enabled: bool, urls: seq<string>, timeout: int, maxRetries: int, headers: map<string, string>,
    baseUrl: string, queueSize: int)

  datatype Event = Event(infoHash: string, torrentUrl: string, body: string)

  datatype Envelope =
    Envelope(event: Event, urls: seq<string>, timeout: int, retries: int, headers: map<string, string>)

  function TrimRightSlash(s: string): (r: string)
    ensures r <= s && (r == "" || r[|r| - 1] != '/') && forall i :: |r| <= i < |s| ==> s[i] == '/'
  {
    if s != [] && s[|s| - 1] == '/' then TrimRightSlash(s[..|s| - 1]) else s
  }

  /** The envelope for an event: the delivery settings as they are at publish time. */
  function Seal(cfg: Config, e: Event): Envelope {
    var e' := if e.torrentUrl == "" && cfg.baseUrl != ""
              then e.(torrentUrl := TrimRightSlash(cfg.baseUrl) + "/api/torrents/" + e.infoHash + "/download")
              else e;
    Envelope(e', cfg.urls, cfg.timeout, cfg.maxRetries, cfg.headers)
  }

  /** The part of `pending` that a fresh queue of capacity `cap` takes over, and the rest. */
  function Kept<T>(pending: seq<T>, cap: nat): seq<T> { if |pending| <= cap then pending else pending[..cap] }
  function Lost<T>(pending: seq<T>, cap: nat): seq<T> { if |pending| <= cap then [] else pending[cap..] }

  class Publisher {
    var config: Config
    var queue: Channel<Envelope>
    const wake: Channel<()>

    ghost predicate Valid() reads this, queue, wake {
      && 1 <= queue.capacity && |queue.buffer| <= queue.capacity
      && wake.capacity == 1 && |wake.buffer| <= 1
      && queue as object != wake
    }

    constructor (cfg: Config)
      ensures Valid() && fresh(queue) && fresh(wake)
      ensures config == cfg && queue.capacity == if cfg.queueSize < 1 then 1000 else cfg.queueSize
      ensures queue.buffer == [] && wake.buffer == []
    {
      config := cfg;
      queue := new Channel(QueueCapacity(cfg.queueSize));
      wake := new Channel(1);
    }

    /** `admitted` is the outcome of the event type check and of the compiled filters. */
    method Publish(e: Event, admitted: bool)
      requires Valid()
      modifies queue
      ensures Valid()
      ensures queue.buffer ==
        if old(config.enabled && admitted && config.urls != [] && |queue.buffer| < queue.capacity)
        then old(queue.buffer) + [Seal(config, e)]
        else old(queue.buffer)
      // the envelope carries the settings of this moment, and a link unless there is none to make
      ensures |queue.buffer| > |old(queue.buffer)| ==>
        var x := queue.buffer[|queue.buffer| - 1];
        && x.urls == config.urls && x.timeout == config.timeout
        && x.retries == config.maxRetries && x.headers == config.headers
        && x.event.infoHash == e.infoHash && x.event.body == e.body
        && (e.torrentUrl != "" || config.baseUrl == "" ==> x.event.torrentUrl == e.torrentUrl)
        && (e.torrentUrl == "" && config.baseUrl != "" ==>
              x.event.torrentUrl == TrimRightSlash(config.baseUrl) + "/api/torrents/" + e.infoHash + "/download")
    {
      var cfg := config;
      if !cfg.enabled || !admitted || |cfg.urls| == 0 {
        return;
      }
      var _ := queue.TrySend(Seal(cfg, e));
    }

    /** Swaps the queue for one of the given size and moves the pending events over, oldest
        first; `lost` are the ones that did not fit. The old channel ends up empty and a wake
        token is pending. */
    method ResizeQueue(size: int) returns (lost: seq<Envelope>)
      requires Valid()
      modifies this`queue, queue, wake
      ensures Valid()
      ensures config == old(config)
      ensures QueueCapacity(size) == old(queue.capacity) ==>
        && queue == old(queue) && queue.buffer == old(queue.buffer)
        && wake.buffer == old(wake.buffer) && lost == []
      ensures QueueCapacity(size) != old(queue.capacity) ==>
        && fresh(queue) && queue.capacity == QueueCapacity(size)
        && queue.buffer == Kept(old(queue.buffer), queue.capacity)
        && lost == Lost(old(queue.buffer), queue.capacity)
        && old(queue).buffer == []
        && |wake.buffer| == 1
    {
      lost := [];
      var cap := QueueCapacity(size);
      if queue.capacity == cap {
        return;
      }
      var prev := queue;
      ghost var pending := prev.buffer;
      queue := new Channel(cap);
      ghost var moved := 0;
      while prev.buffer != []
        invariant 0 <= moved <= |pending| && prev.buffer == pending[moved..]
        invariant fresh(queue) && queue.capacity == cap && config == old(config)
        invariant queue.buffer == Kept(pending[..moved], cap)
        invariant lost == Lost(pending[..moved], cap)
        invariant wake.buffer == old(wake.buffer)
        decreases |prev.buffer|
      {
        var e := prev.TryReceive();
        var sent := queue.TrySend(e.value);
        if !sent {
          lost := lost + [e.value];
        }
        assert pending[..moved + 1] == pending[..moved] + [pending[moved]];
        moved := moved + 1;
      }
      assert pending[..moved] == pending;
      var _ := wake.TrySend(());
    }

    /** Update stores the config and resizes the live queue: events that were accepted keep the
        settings they were accepted with, and none is lost exactly when they all fit. */
    method Update(cfg: Config) returns (lost: seq<Envelope>)
      requires Valid()
      modifies this`config, this`queue, queue, wake
      ensures Valid() && config == cfg
      ensures queue.buffer + lost == old(queue.buffer)
      ensures queue.capacity == if cfg.queueSize < 1 then 1000 else cfg.queueSize
      ensures |queue.buffer| == if |old(queue.buffer)| <= queue.capacity then |old(queue.buffer)| else queue.capacity
      ensures lost == [] <==> |old(queue.buffer)| <= queue.capacity
    {
      config := cfg;
      lost := ResizeQueue(cfg.queueSize);
    }

    /** What a worker delivers after it was cancelled: everything in the queue, oldest first. */
    method Drain() returns (delivered: seq<Envelope>)
      requires Valid()
      modifies queue
      ensures Valid()
      ensures delivered == old(queue.buffer) && queue.buffer == []
    {
      delivered := [];
      var q := queue;
      while q.buffer != []
        invariant delivered + q.buffer == old(queue.buffer)
        decreases |q.buffer|
      {
        var e := q.TryReceive();
        delivered := delivered + [e.value];
      }
    }
  }
}
