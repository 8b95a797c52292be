/** The unit of work the scheduler is handed: a stand-in for the host platform's
    thread object. The scheduler never runs it, it only observes whether it has
    been started, starts it once, and may ask it to stop. Identity is reference
    identity, exactly as the scheduler compares handles. */
module Handle {

  class Thread {
    /** False while the thread is in its NEW state; true once `start` was called. */
    var started: bool
    /** Set by an advisory interrupt request; the thread may ignore it. */
    var interrupted: bool

    constructor ()
      ensures !started && !interrupted
    {
      started := false;
      interrupted := false;
    }

    /** Starting a thread twice is an error on the host platform, hence the
        precondition: callers must check the NEW state first. */
    method Start()
      requires !started
      modifies this
      ensures started && interrupted == old(interrupted)
    {
      started := true;
    }

    /** Advisory interrupt: only records the request. */
    method Interrupt()
      modifies this
      ensures interrupted && started == old(started)
    {
      interrupted := true;
    }
  }
}
