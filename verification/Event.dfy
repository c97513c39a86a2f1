/** event.h: an event embeds the node that stands for its timer. */
module Events {
  import opened RbNode

  datatype Handler = NoHandler | TimerHandler | ConnectHandler | RecvHandler

  class Event {
    var data: object?
    var timedout: bool
    var timerSet: bool
    var handler: Handler
    const timer: Node

    /** The fields as the program that allocates the event sets them. */
    constructor (d: object?, h: Handler)
      ensures data == d && handler == h && !timedout && !timerSet && fresh(timer)
    {
      data, handler := d, h;
      timedout, timerSet := false, false;
      timer := new Node(0);
    }
  }
}
