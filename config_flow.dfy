/** The config flow: the hub id read from a zeroconf service name, the
    translation of connection failures into the errors the forms show, and
    the entries the user and zeroconf-confirm steps create. */
module ConfigFlow {
  import opened Wrappers
  import opened Homee

  // ---------------------------------------------------------------------
  // str.split with a one-character separator

  /** The index of the first occurrence of c in s. */
  function IndexOf(s: string, c: char): (i: nat)
    requires c in s
    ensures i < |s| && s[i] == c && c !in s[..i]
  {
    if s[0] == c then 0
    else
      assert s == [s[0]] + s[1..];
      var i := IndexOf(s[1..], c);
      assert s[..i + 1] == [s[0]] + s[1..][..i];
      i + 1
  }

  /** s.split(sep): the pieces between the separators, left to right. */
  function Split(s: string, sep: char): (r: seq<string>)
    ensures |r| >= 1
    ensures |r| == 1 <==> sep !in s
    decreases |s|
  {
    if sep !in s then [s]
    else
      var i := IndexOf(s, sep);
      [s[..i]] + Split(s[i + 1..], sep)
  }

  /** No piece holds the separator. */
  lemma {:induction false} SplitPiecesFree(s: string, sep: char)
    ensures forall p :: p in Split(s, sep) ==> sep !in p
    decreases |s|
  {
    if sep in s {
      var i := IndexOf(s, sep);
      SplitPiecesFree(s[i + 1..], sep);
    }
  }

  /** sep.join(parts). */
  function Join(parts: seq<string>, sep: char): string
    requires |parts| >= 1
  {
    if |parts| == 1 then parts[0] else parts[0] + [sep] + Join(parts[1..], sep)
  }

  /** Joining the pieces gives back the string. */
  lemma {:induction false} JoinSplit(s: string, sep: char)
    ensures Join(Split(s, sep), sep) == s
    decreases |s|
  {
    if sep in s {
      var i := IndexOf(s, sep);
      var rest := Split(s[i + 1..], sep);
      JoinSplit(s[i + 1..], sep);
      assert Split(s, sep) == [s[..i]] + rest;
      assert ([s[..i]] + rest)[1..] == rest;
      assert s == s[..i] + [sep] + s[i + 1..];
    }
  }

  /** A first piece free of the separator splits off unchanged. */
  lemma SplitFirst(x: string, sep: char, y: string)
    requires sep !in x
    ensures Split(x + [sep] + y, sep) == [x] + Split(y, sep)
  {
    var s := x + [sep] + y;
    assert s[|x|] == sep;
    var i := IndexOf(s, sep);
    assert s[..|x|] == x;
    assert forall j :: 0 <= j < |x| ==> s[j] == x[j];
    assert i == |x|;
    assert s[i + 1..] == y;
  }

  // ---------------------------------------------------------------------
  // Zeroconf

  /** The zeroconf step's hub id: name.split("-")[1].split(".")[0]. A name
      without '-' has no second piece, which is an IndexError. */
  function ZeroconfId(name: string): (r: Result<string, Fault>)
    ensures r.Failure? <==> '-' !in name
    ensures r.Failure? ==> r.error == IndexError
    ensures r.Success? ==> '-' !in r.value && '.' !in r.value
  {
    var pieces := Split(name, '-');
    if |pieces| < 2 then Failure(IndexError)
    else
      var id := Split(pieces[1], '.')[0];
      SplitPiecesFree(name, '-');
      SplitPiecesFree(pieces[1], '.');
      assert pieces[1] in pieces;
      assert Split(pieces[1], '.')[0] in Split(pieces[1], '.');
      Success(id)
  }

  /** For the service name "homee-<ID>._sftp-ssh._tcp.local." the id is ID. */
  lemma ZeroconfIdOfServiceName(id: string)
    requires '-' !in id && '.' !in id
    ensures ZeroconfId("homee-" + id + "._sftp-ssh._tcp.local.") == Success(id)
  {
    var name := "homee-" + id + "._sftp-ssh._tcp.local.";
    var second := id + "._sftp";
    var rest := "ssh._tcp.local.";
    var afterFirst := second + ['-'] + rest;
    ServiceNameParts(id);
    SplitFirst("homee", '-', afterFirst);
    assert '-' !in second;
    SplitFirst(second, '-', rest);
    assert Split(name, '-') == ["homee"] + ([second] + Split(rest, '-'));
    ServiceNameParts(id);
    SplitFirst(id, '.', "_sftp");
  }

  /** How the service name and its second dash-piece are put together. */
  lemma ServiceNameParts(id: string)
    ensures "homee-" + id + "._sftp-ssh._tcp.local." == "homee" + ['-'] + ((id + "._sftp") + ['-'] + "ssh._tcp.local.")
    ensures id + "._sftp" == id + ['.'] + "_sftp"
    ensures '-' !in "homee" && '-' !in "._sftp"
  {
    assert "homee-" == "homee" + ['-'];
    assert "._sftp-ssh._tcp.local." == "._sftp" + ['-'] + "ssh._tcp.local.";
    assert "._sftp" == ['.'] + "_sftp";
  }

  // ---------------------------------------------------------------------
  // Validation and errors

  /** What the token request of a validation attempt does; the network call
      itself is outside the model. */
  datatype TokenOutcome = TokenGranted | AuthenticationFailed | TimedOut | OtherFailure

  /** The exceptions the steps tell apart. */
  datatype FlowError = CannotConnect | InvalidAuth | Unexpected

  datatype Info = Info(title: string, description: string)

  const ConfHost := "host"
  const ConfUsername := "username"
  const ConfPassword := "password"

  /** validate_input: reading the host, username and password (a missing
      key is an unexpected error), then the token request, whose
      authentication failure becomes InvalidAuth and whose timeout becomes
      CannotConnect; any other failure passes through as unexpected. */
  function ValidateInput(data: map<string, string>, outcome: TokenOutcome): (r: Result<Info, FlowError>)
    ensures r == Failure(InvalidAuth) <==> ConfHost in data && ConfUsername in data && ConfPassword in data && outcome == AuthenticationFailed
    ensures r == Failure(CannotConnect) <==> ConfHost in data && ConfUsername in data && ConfPassword in data && outcome == TimedOut
    ensures r.Success? <==> ConfHost in data && ConfUsername in data && ConfPassword in data && outcome == TokenGranted
    ensures r.Success? ==> r.value == Info("homee", "homee cube at " + data[ConfHost])
  {
    if !(ConfHost in data && ConfUsername in data && ConfPassword in data) then Failure(Unexpected)
    else match outcome
      case AuthenticationFailed => Failure(InvalidAuth)
      case TimedOut => Failure(CannotConnect)
      case OtherFailure => Failure(Unexpected)
      case TokenGranted => Success(Info("homee", "homee cube at " + data[ConfHost]))
  }

  /** The errors["base"] key a failed step shows. */
  function ErrorKey(e: FlowError): (k: string)
    ensures k == "cannot_connect" <==> e == CannotConnect
    ensures k == "invalid_auth" <==> e == InvalidAuth
    ensures k == "unknown" <==> e == Unexpected
  {
    match e
    case CannotConnect => "cannot_connect"
    case InvalidAuth => "invalid_auth"
    case Unexpected => "unknown"
  }

  /** What a step hands back to the host: a new entry, a form with its
      errors and description placeholders, or an exception. */
  datatype FlowResult =
    | CreateEntry(title: string, data: map<string, string>)
    | ShowForm(stepId: string, errors: map<string, string>, placeholders: map<string, string>)
    | Raised(fault: Fault)

  /** How an f-string renders a field that may still be None. */
  function Shown(o: Option<string>): string {
    if o.Some? then o.value else "None"
  }

  /** The zeroconf discovery data the step reads. */
  datatype DiscoveryInfo = DiscoveryInfo(name: string, host: string)

  /** ConfigFlowHandler: the hub host and id found by discovery. */
  class ConfigFlowHandler {
    var homeeHost: Option<string>
    var homeeId: Option<string>
    var titlePlaceholders: map<string, string>

    constructor ()
      ensures homeeHost.None? && homeeId.None? && titlePlaceholders == map[]
    {
      homeeHost := None;
      homeeId := None;
      titlePlaceholders := map[];
    }

    /** async_step_user: without input the empty form; with input an entry
        titled after the host, or the form again with the error key. */
    method StepUser(userInput: Option<map<string, string>>, outcome: TokenOutcome) returns (r: FlowResult)
      ensures userInput.None? ==> r == ShowForm("user", map[], map[])
      ensures userInput.Some? && ValidateInput(userInput.value, outcome).Success? ==>
                r == CreateEntry("homee cube at " + userInput.value[ConfHost], userInput.value)
      ensures userInput.Some? && ValidateInput(userInput.value, outcome).Failure? ==>
                r == ShowForm("user", map["base" := ErrorKey(ValidateInput(userInput.value, outcome).error)], map[])
    {
      var errors: map<string, string> := map[];
      if userInput.Some? {
        var info := ValidateInput(userInput.value, outcome);
        if info.Success? {
          return CreateEntry(info.value.description, userInput.value);
        }
        errors := errors["base" := ErrorKey(info.error)];
      }
      return ShowForm("user", errors, map[]);
    }

    /** async_step_zeroconf: store the raw name, then the id cut out of it,
        and the host; set the title placeholders; go on to the confirm step
        without input. */
    method StepZeroconf(discovery: DiscoveryInfo) returns (r: FlowResult)
      modifies this
      ensures '-' !in discovery.name ==>
                r == Raised(IndexError) && homeeId == Some(discovery.name) &&
                homeeHost == old(homeeHost) && titlePlaceholders == old(titlePlaceholders)
      ensures '-' in discovery.name ==>
                homeeId == Some(ZeroconfId(discovery.name).value) && homeeHost == Some(discovery.host) &&
                titlePlaceholders == map["host" := discovery.host, "name" := homeeId.value] &&
                r == ShowForm("zeroconf_confirm", map[], map["id" := homeeId.value, "host" := discovery.host])
    {
      homeeId := Some(discovery.name);
      var id := ZeroconfId(homeeId.value);
      if id.Failure? {
        return Raised(id.error);
      }
      homeeId := Some(id.value);
      homeeHost := Some(discovery.host);
      titlePlaceholders := map["host" := discovery.host, "name" := homeeId.value];
      r := StepZeroconfConfirm(None, TokenGranted);
    }

    /** async_step_zeroconf_confirm: without input the form with the id and
        host placeholders; with input an entry titled "{id} ({host})" whose
        data carries the hub id, or the form again with the error key. */
    method StepZeroconfConfirm(userInput: Option<map<string, string>>, outcome: TokenOutcome) returns (r: FlowResult)
      ensures userInput.None? ==>
                r == ShowForm("zeroconf_confirm", map[], map["id" := Shown(homeeId), "host" := Shown(homeeHost)])
      ensures userInput.Some? && ValidateInput(userInput.value, outcome).Success? ==>
                r == CreateEntry(Shown(homeeId) + " (" + Shown(homeeHost) + ")",
                                 userInput.value["homee_id" := Shown(homeeId)])
      ensures userInput.Some? && ValidateInput(userInput.value, outcome).Failure? ==>
                r == ShowForm("zeroconf_confirm", map["base" := ErrorKey(ValidateInput(userInput.value, outcome).error)],
                              map["id" := Shown(homeeId), "host" := Shown(homeeHost)])
    {
      var errors: map<string, string> := map[];
      if userInput.Some? {
        var info := ValidateInput(userInput.value, outcome);
        if info.Success? {
          var data := userInput.value["homee_id" := Shown(homeeId)];
          return CreateEntry(Shown(homeeId) + " (" + Shown(homeeHost) + ")", data);
        }
        errors := errors["base" := ErrorKey(info.error)];
      }
      return ShowForm("zeroconf_confirm", errors, map["id" := Shown(homeeId), "host" := Shown(homeeHost)]);
    }
  }

  /** A failed validation always puts one of the three error keys on the
      form, and a successful one never shows a form. */
  lemma FailedStepShowsKnownKey(data: map<string, string>, outcome: TokenOutcome)
    ensures ValidateInput(data, outcome).Failure? ==>
              ErrorKey(ValidateInput(data, outcome).error) in ["cannot_connect", "invalid_auth", "unknown"]
    ensures ValidateInput(data, outcome).Failure? && outcome == TokenGranted ==>
              ErrorKey(ValidateInput(data, outcome).error) == "unknown"
  {
  }
}
