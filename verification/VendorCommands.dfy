/** The vendor command: who answers a request, and when the user is asked. */
module VendorCommands {
  import opened Words
  import opened FlashBackend
  import opened UsbUpdate
  import opened UpdateSoundness

  const SECURITY_STATUS_REQUEST: byte := 0x11

  /** What the parts outside the updater contribute to one request. */
  datatype Others = Others(diagnostics: Option<Bytes>, securityStatus: Bytes, pressed: bool)

  datatype Reply = Reply(b: Backend, u: Updater, response: Bytes)

  predicate AsksForPresence(response: Bytes) {
    response != [] && response[0] == UserPresenceRequired.Code()
  }

  function HandleReply(b: Backend, u: Updater, request: Bytes, present: bool, c: Crypto): Reply
    requires Sound(b, u) && |u.currentVersion| < 0x100
  {
    HandleEffect(b, u, request, present, c);
    var o := Handle(b, u, request, present, c);
    Reply(o.b, o.u, EncodeResponse(o.u, o.status))
  }

  function FirstReply(b: Backend, u: Updater, request: Bytes, others: Others, c: Crypto): (r: Reply)
    requires Sound(b, u) && |u.currentVersion| < 0x100
    ensures Sound(r.b, r.u) && |r.u.currentVersion| < 0x100
  {
    HandleEffect(b, u, request, false, c);
    if others.diagnostics.Some? then Reply(b, u, others.diagnostics.value)
    else if request == [SECURITY_STATUS_REQUEST] then Reply(b, u, others.securityStatus)
    else HandleReply(b, u, request, false, c)
  }

  /** Only an answer that asks for presence leads to the button, and only the button to a second try. */
  function DispatchReply(b: Backend, u: Updater, request: Bytes, others: Others, c: Crypto): (r: Reply)
    requires Sound(b, u) && |u.currentVersion| < 0x100
  {
    var first := FirstReply(b.Logged(Received), u, request, others, c);
    if AsksForPresence(first.response) && others.pressed
    then HandleReply(first.b.Logged(Approved), first.u, request, true, c)
    else first
  }
}
