/** The sign-in form's client-side checks: the three inputs are trimmed, the
    NIC is validated, then the mobile number, and only a request that passes
    both is sent to the authenticate endpoint. */
module Auth {
  import opened Text
  import opened Validators
  import opened Wrappers
  import Server

  /** The JSON body of the authenticate request. */
  datatype AuthRequest = AuthRequest(nic: string, name: string, mobile: string)

  /** The outcome of the checks: the request to send, or the error to show. */
  datatype Check = Send(request: AuthRequest) | Refuse(error: string)

  const NicError := "\U{26A0}\U{FE0F} Please enter a valid Sri Lankan NIC!"
  const MobileError := "\U{26A0}\U{FE0F} Please enter a valid Sri Lankan Mobile number!"

  /** The checks `handleSubmit` makes before any request goes out. */
  function PreValidate(nic: string, name: string, mobile: string): (c: Check)
    ensures c.Send? <==> IsValidNic(Trim(nic)) && IsValidMobile(Trim(mobile))
    ensures c.Refuse? ==> c.error != ""
    ensures c.Send? ==> c.request == AuthRequest(Trim(nic), Trim(name), Trim(mobile))
  {
    var nicTrim := Trim(nic);
    var nameTrim := Trim(name);
    var mobileTrim := Trim(mobile);
    if !IsValidNic(nicTrim) then Refuse(NicError)
    else if !IsValidMobile(mobileTrim) then Refuse(MobileError)
    else Send(AuthRequest(nicTrim, nameTrim, mobileTrim))
  }

  /** The NIC is checked first: with a bad NIC the error is the NIC error,
      whatever the mobile number. The mobile error appears exactly when the
      NIC passes and the mobile number does not. */
  lemma NicCheckedFirst(nic: string, name: string, mobile: string)
    ensures !IsValidNic(Trim(nic)) ==> PreValidate(nic, name, mobile) == Refuse(NicError)
    ensures PreValidate(nic, name, mobile) == Refuse(MobileError)
        <==> IsValidNic(Trim(nic)) && !IsValidMobile(Trim(mobile))
  {
  }

  /** Whatever passes the form's checks passes the server's format checks
      too: the server does not trim, and the form sends the trimmed values.
      So, on any store, the server never answers such a request with 400. */
  lemma SentRequestsPassServerFormat(nic: string, name: string, mobile: string, ps: seq<Server.Player>)
    requires PreValidate(nic, name, mobile).Send?
    ensures var r := PreValidate(nic, name, mobile).request;
      Server.AuthenticateOutcome(ps, r.nic, r.name, r.mobile).response.code != 400
  {
  }

  /** Surrounding whitespace in the inputs makes no difference. */
  lemma WhitespaceIgnored(nic: string, name: string, mobile: string)
    ensures PreValidate(Trim(nic), Trim(name), Trim(mobile)) == PreValidate(nic, name, mobile)
  {
    TrimIdempotent(nic);
    TrimIdempotent(name);
    TrimIdempotent(mobile);
  }

  /** The form's state: the three inputs and the error line. */
  class AuthForm {
    var nic: string
    var name: string
    var mobile: string
    var error: string

    constructor ()
      ensures nic == "" && name == "" && mobile == "" && error == ""
    {
      nic, name, mobile, error := "", "", "", "";
    }

    /** The `onChange` handlers of the three inputs. */
    method SetNic(value: string)
      modifies this`nic
      ensures nic == value
    {
      nic := value;
    }

    method SetName(value: string)
      modifies this`name
      ensures name == value
    {
      name := value;
    }

    method SetMobile(value: string)
      modifies this`mobile
      ensures mobile == value
    {
      mobile := value;
    }

    /** `handleSubmit` up to the request: clears the error, then either sets
      the first failing check's error and sends nothing, or returns the
      request body to post with the error left empty. */
    method HandleSubmit() returns (request: Option<AuthRequest>)
      modifies this`error
      ensures match PreValidate(nic, name, mobile)
        case Send(r) => request == Some(r) && error == ""
        case Refuse(e) => request == None && error == e
    {
      error := "";
      var nicTrim := Trim(nic);
      var nameTrim := Trim(name);
      var mobileTrim := Trim(mobile);
      if !IsValidNic(nicTrim) {
        error := NicError;
        return None;
      }
      if !IsValidMobile(mobileTrim) {
        error := MobileError;
        return None;
      }
      request := Some(AuthRequest(nicTrim, nameTrim, mobileTrim));
    }
  }
}
