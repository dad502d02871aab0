/** The copilot's transactions as they run, each proved to be the step of the same name. */
module CopilotDesk {
  import opened Prelude
  import opened CopilotShop
  import Protocol = Copilot
  import Requests = Concurrency
  import Shop
  import ShopInvariant

  class Desk {
    var shop: Shop.State
    var messages: seq<Protocol.Message>
    var confirms: seq<Confirm>

    function Here(): World
      reads this
    {
      World(shop, messages, confirms)
    }

    constructor ()
      ensures Here() == START && WorldOk(Here())
    {
      shop, messages, confirms := Shop.EMPTY, [], [];
      new;
      StartOk();
    }

    /** The first read of a confirm: the proposal must be open, and the payload of its kind. */
    method BeginConfirm(m: nat, payload: Payload, expired: bool) returns (c: Option<nat>)
      requires WorldOk(Here())
      modifies this`confirms
      ensures WorldOk(Here()) && Here() == CopilotShop.Step(old(Here()), Begin(m, payload, expired))
      ensures c.Some? <==> Open(old(Here()), m, expired) && Fits(old(messages)[m].kind, payload)
    {
      hide ShopInvariant.Inv;
      StepOk(Here(), Begin(m, payload, expired));
      if m >= |messages| || messages[m].status != Protocol.Pending || expired { return None; }
      if !Fits(messages[m].kind, payload) { return None; }
      c := Some(|confirms|);
      confirms := confirms + [Confirm(m, payload, Protocol.HasRead)];
    }

    /** The service call, committed before the proposal is touched; a refusal leaves the proposal pending. */
    method CallService(c: nat)
      requires WorldOk(Here()) && c < |confirms|
      modifies this`shop, this`confirms
      ensures WorldOk(Here()) && Here() == CopilotShop.Step(old(Here()), Serve(c)) && messages == old(messages)
    {
      hide WorldOk, Shop.Step, Shop.Attempt, Requests.Lookup;
      StepOk(Here(), Serve(c));
      var call := confirms[c];
      if call.progress != Protocol.HasRead { return; }
      var req := RequestOf(call.payload, call.message);
      var existing := Requests.Lookup(shop, req);
      if existing.Some? {
        var same := Requests.DigestAt(shop, req, existing.value) == Requests.DigestOf(req);
        confirms := confirms[c := call.(progress := if same then Protocol.Served(existing.value) else Protocol.Ended)];
        return;
      }
      var written := Shop.Attempt(shop, Requests.OpOf(req));
      if written.Err? {
        confirms := confirms[c := call.(progress := Protocol.Ended)];
      } else {
        confirms := confirms[c := call.(progress := Protocol.Served(Requests.TableSize(shop, req)))];
        shop := written.value;
      }
    }

    /** The second transaction: re-reads the locked message and marks it applied, if it is still open. */
    method MarkIt(c: nat, expired: bool) returns (marked: bool)
      requires WorldOk(Here()) && c < |confirms|
      modifies this`messages, this`confirms
      ensures WorldOk(Here()) && Here() == CopilotShop.Step(old(Here()), Mark(c, expired))
      ensures marked <==> old(confirms)[c].progress.Served? && Open(old(Here()), old(confirms)[c].message, expired)
    {
      hide WorldOk;
      StepOk(Here(), Mark(c, expired));
      var call := confirms[c];
      if !call.progress.Served? { return false; }
      confirms := confirms[c := call.(progress := Protocol.Ended)];
      if call.message >= |messages| || messages[call.message].status != Protocol.Pending || expired { return false; }
      messages := messages[call.message :=
        messages[call.message].(status := Protocol.Applied, entity := Some(call.progress.entity))];
      return true;
    }

    method RejectIt(m: nat, expired: bool) returns (rejected: bool)
      requires WorldOk(Here())
      modifies this`messages
      ensures WorldOk(Here()) && Here() == CopilotShop.Step(old(Here()), Reject(m, expired))
      ensures rejected == Open(old(Here()), m, expired)
    {
      hide WorldOk;
      StepOk(Here(), Reject(m, expired));
      if m >= |messages| || messages[m].status != Protocol.Pending || expired { return false; }
      messages := messages[m := messages[m].(status := Protocol.Rejected)];
      return true;
    }
  }
}
