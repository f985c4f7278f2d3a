/** How the server reads what `adb` prints (server.py): the keyboard probe of
    `get_current_keyboard`, the `ime set` call of `set_keyboard` and the
    `adb connect` of `connect_wireless_adb` with its endpoint. The
    subprocess itself is not modelled: a call is the text it printed on
    standard output, or the text of the exception it raised. */
module DeviceBridge {
  import opened Text
  import opened Storage

  /** One `subprocess.run` of `adb`: its standard output, or the exception
      raised instead (timeout, `adb` missing, a non-zero exit under
      `check=True`), as its `str`. */
  datatype Proc = Ran(stdout: string) | Raised(error: string)

  /** `get_current_keyboard`: the stripped output of
      `settings get secure default_input_method`, unless it is empty or
      contains `null` anywhere; a failed probe gives no keyboard. The test
      for `null` may as well be made on the raw output. */
  function KeyboardFromProbe(p: Proc): (kb: Option<string>)
    ensures p.Raised? ==> kb.None?
    ensures p.Ran? ==> (kb.Some? <==> Strip(p.stdout) != [] && !Contains(p.stdout, "null"))
    ensures kb.Some? ==> p.Ran? && kb.value == Strip(p.stdout)
  {
    match p
    case Raised(_) => None
    case Ran(out) =>
      StripContains(out, "null");
      var kb := Strip(out);
      if kb != [] && !Contains(kb, "null") then Some(kb) else None
  }

  /** A captured keyboard id is non-empty (so truthy), already stripped, and
      never mentions `null`. */
  lemma KeyboardClean(p: Proc)
    requires KeyboardFromProbe(p).Some?
    ensures var id := KeyboardFromProbe(p).value;
      id != [] && Strip(id) == id && !Contains(id, "null")
  {
    StripTwice(p.stdout);
  }

  /** A probe that prints `null`, however padded, gives no keyboard. */
  lemma KeyboardNull(before: string, after: string)
    ensures KeyboardFromProbe(Ran(before + "null" + after)).None?
  {
    ContainsMiddle(before, "null", after);
  }

  /** What `connect_wireless_adb` returns: `success` and `message`. */
  datatype Connection = Connection(success: bool, message: string)

  /** `connect_wireless_adb(ip, port)`: success exactly when the output of
      `adb connect ip:port` contains `connected to`; the message names the
      target on success, repeats the stripped output on failure, and is the
      exception's text when the call raised. */
  function ConnectWireless(ip: string, port: string, p: Proc): (c: Connection)
    ensures c.success <==> p.Ran? && Contains(p.stdout, "connected to")
    ensures c.success ==> c.message == "Connected to " + ip + ":" + port
    ensures p.Ran? && !c.success ==> c.message == "Failed: " + Strip(p.stdout)
    ensures p.Raised? ==> c.message == p.error
  {
    match p
    case Raised(e) => Connection(false, e)
    case Ran(out) =>
      StripContains(out, "connected to");
      var output := Strip(out);
      if Contains(output, "connected to") then Connection(true, "Connected to " + ip + ":" + port)
      else Connection(false, "Failed: " + output)
  }

  /** `adb` reports both a new and an existing connection with a line
      containing `connected to`; either counts as success. */
  lemma ReportedConnection(ip: string, port: string, before: string, after: string)
    ensures ConnectWireless(ip, port, Ran(before + "connected to" + after)).success
  {
    ContainsMiddle(before, "connected to", after);
  }

  /** The reply of `POST /connect_wireless`: status `success` with the
      message, or HTTP 400 with the message as detail. */
  datatype WirelessReply = Connected(detail: string) | Rejected(detail: string)

  /** `POST /connect_wireless`: the outcome of `connect_wireless_adb`,
      success or HTTP 400, always carrying its message. */
  function WirelessEndpoint(ip: string, port: string, p: Proc): (r: WirelessReply)
    ensures r.Connected? <==> p.Ran? && Contains(p.stdout, "connected to")
    ensures r.Connected? ==> r.detail == "Connected to " + ip + ":" + port
    ensures r.detail == ConnectWireless(ip, port, p).message
    ensures r.Rejected? && p.Ran? ==> r.detail == "Failed: " + Strip(p.stdout)
    ensures r.Rejected? && p.Raised? ==> r.detail == p.error
  {
    var c := ConnectWireless(ip, port, p);
    if c.success then Connected(c.message) else Rejected(c.message)
  }

  /** The phone, as far as the server changes it: the input-method ids it
      was told to switch to with `adb shell ime set`, oldest first. */
  class Device {
    var imeSets: seq<string>

    constructor ()
      ensures imeSets == []
    {
      imeSets := [];
    }

    /** `set_keyboard(id)`: an empty id issues no command. A failing command
        is only logged, so the attempt is all that is recorded. */
    method SetKeyboard(id: string)
      modifies this
      ensures imeSets == if id == [] then old(imeSets) else old(imeSets) + [id]
    {
      if id != [] {
        imeSets := imeSets + [id];
      }
    }
  }
}
