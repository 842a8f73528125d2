/** The agents controller mixin: signing up, activating an account by its
    emailed code, asking for a password reset, resetting the password, the
    `get_agent` filter and the two option guards.

    Agents live in a table modelled as a sequence; the agent at position `i`
    has the database id `i + 1`. The controller's "current agent" slot is
    either the anonymous agent or a position in that table. */
module Agents {

  import opened CmsTypes
  import opened Text

  /** An agent record. The password fields, the activation state and the two
      one-time codes are what the actions below read or write. */
  datatype Agent = Agent(
    login: string,
    email: Option<string>,
    openid: Option<string>,
    password: Option<string>,
    active: bool,
    activationCode: Option<string>,
    resetCode: Option<string>)

  /** The agent class: its humanized name, its `agent_options` (`activation`
      and the list of `authentication` modes), and whether its records
      respond to `active?`. */
  datatype AgentClass = AgentClass(
    name: string,
    activation: bool,
    authentication: seq<string>,
    respondsToActive: bool)

  datatype CurrentAgent = Anonymous | Signed(index: nat)

  /** The `find_by_…` finders the actions use. A missing parameter is `nil`,
      and `find_by_reset_password_code(nil)` looks for a NULL column; an email
      parameter, even an empty one, never matches a NULL email. */
  datatype Key =
    | ByActivationCode(code: string)
    | ByEmail(address: string)
    | ByResetCode(reset: Option<string>)
    | ByLogin(name: string)

  predicate Matches(a: Agent, k: Key) {
    match k
    case ByActivationCode(c) => a.activationCode == Some(c)
    case ByEmail(e) => a.email == Some(e)
    case ByResetCode(c) => a.resetCode == c
    case ByLogin(l) => a.login == l
  }

  /** `find_by_…`: the first record in table order that matches, if any. */
  function FindFirst(agents: seq<Agent>, k: Key): (r: Option<nat>)
    ensures r.Some? ==> r.value < |agents| && Matches(agents[r.value], k)
    ensures r.Some? ==> forall j :: 0 <= j < r.value ==> !Matches(agents[j], k)
    ensures r.None? <==> forall j :: 0 <= j < |agents| ==> !Matches(agents[j], k)
  {
    if |agents| == 0 then None
    else if Matches(agents[0], k) then Some(0)
    else
      assert forall j :: 0 < j < |agents| ==> agents[j] == agents[1..][j - 1];
      match FindFirst(agents[1..], k)
      case None => None
      case Some(j) => Some(j + 1)
  }

  // ---------------------------------------------------------------------
  // get_agent

  /** The outcome of the `get_agent` filter: a record, the RecordNotFound that
      `find` raises, or the nil that `find_by_login` returns. */
  datatype Lookup = Found(index: nat) | RecordNotFound | NoSuchLogin

  /** `find(id)`: ids count from 1. */
  function FindById(agents: seq<Agent>, id: nat): (r: Lookup)
    ensures r.Found? <==> 1 <= id <= |agents|
    ensures r.Found? ==> r.index + 1 == id
    ensures !r.Found? ==> r == RecordNotFound
  {
    if 1 <= id <= |agents| then Found(id - 1) else RecordNotFound
  }

  /** `find_by_login(login)`. */
  function FindByLogin(agents: seq<Agent>, login: string): (r: Lookup)
    ensures r.Found? ==> r.index < |agents| && agents[r.index].login == login
    ensures r == NoSuchLogin <==> forall j :: 0 <= j < |agents| ==> agents[j].login != login
    ensures r != RecordNotFound
  {
    match FindFirst(agents, ByLogin(login))
    case Some(i) => Found(i)
    case None => NoSuchLogin
  }

  /** `get_agent` as the source has it: the `/\d+/` test is not anchored, so a
      parameter with a digit anywhere is taken for an id and converted with
      `to_i`. */
  function GetAgent(agents: seq<Agent>, param: string): (r: Lookup)
    ensures MatchesDigits(param) ==> r == FindById(agents, ToI(param))
    ensures (exists i :: 0 <= i < |param| && IsDigit(param[i])) ==> r != NoSuchLogin
    ensures (forall i :: 0 <= i < |param| ==> !IsDigit(param[i])) ==>
      r == FindByLogin(agents, param)
  {
    if MatchesDigits(param) then FindById(agents, ToI(param)) else FindByLogin(agents, param)
  }

  /** A login with a digit in it is never found by `get_agent`: "bob2" is taken
      for the id `"bob2".to_i`, that is 0, which no record has. */
  lemma DigitInLoginMissesAgent()
    ensures var agents := [Agent("bob2", Some("bob@example.org"), None, None, true, None, None)];
      agents[0].login == "bob2" && GetAgent(agents, "bob2") == RecordNotFound
  {
    var s := "bob2";
    assert IsDigit(s[3]);
    assert !IsDigit(s[0]);
    assert LeadingDigits(s) == "";
  }

  /** `get_agent` with the test anchored at both ends: only a parameter made of
      digits alone is an id. */
  function GetAgentAnchored(agents: seq<Agent>, param: string): (r: Lookup)
    ensures AllDigits(param) ==> r == FindById(agents, DigitsValue(param))
    ensures !AllDigits(param) ==> r == FindByLogin(agents, param)
  {
    if AllDigits(param) then FindById(agents, DigitsValue(param)) else FindByLogin(agents, param)
  }

  /** With the anchored test, every agent whose login is not a number is
      found by its login, and the record found carries that login. */
  lemma AnchoredFindsEveryLogin(agents: seq<Agent>, i: nat)
    requires i < |agents| && !AllDigits(agents[i].login)
    ensures var r := GetAgentAnchored(agents, agents[i].login);
      r.Found? && agents[r.index].login == agents[i].login
  {
    var r := GetAgentAnchored(agents, agents[i].login);
    assert r == FindByLogin(agents, agents[i].login);
    assert r != NoSuchLogin;
  }

  /** The anchored filter differs from the source only on a parameter that
      mixes digits and other characters. */
  lemma AnchoredAgreesOnUnmixedParams(agents: seq<Agent>, param: string)
    requires AllDigits(param) || !MatchesDigits(param)
    ensures GetAgentAnchored(agents, param) == GetAgent(agents, param)
  {
    if AllDigits(param) {
      LeadingDigitsOfDigits(param);
      assert ToI(param) == DigitsValue(param);
      assert IsDigit(param[0]);
    }
  }

  // ---------------------------------------------------------------------
  // The guard filters

  datatype Guard = Proceed | RedirectBack

  /** `activation_required`: the action runs only when the class has the
      `activation` option. */
  function ActivationRequired(cls: AgentClass): (g: Guard)
    ensures g == Proceed <==> cls.activation
    ensures g == RedirectBack <==> !cls.activation
  {
    if cls.activation then Proceed else RedirectBack
  }

  /** `login_and_pass_auth_required`: the action runs only when the
      authentication modes include login and password. */
  function LoginAndPassAuthRequired(cls: AgentClass): (g: Guard)
    ensures g == Proceed <==> exists i :: 0 <= i < |cls.authentication| && cls.authentication[i] == "login_and_password"
    ensures g.RedirectBack? <==> "login_and_password" !in cls.authentication
  {
    if "login_and_password" in cls.authentication then Proceed else RedirectBack
  }

  // ---------------------------------------------------------------------
  // Flash messages and responses

  datatype Notice =
    | AgentCreated(kind: string)      // an authenticated agent created another
    | ThanksForSigningUp
    | SignupComplete
    | ResetLinkSent
    | PasswordReset

  /** The activation note appended to the signup notice. */
  datatype ActivationNote = ActivationEmailSent(kind: string) | CheckYourEmail

  datatype Info = Info(notice: Notice, activation: Option<ActivationNote>)

  datatype ErrorNote = NobodyWithThatEmail | InvalidResetCode

  /** The `:info` and `:error` entries of the flash. */
  datatype Flash = Flash(info: Option<Info>, error: Option<ErrorNote>)

  datatype AgentResponse =
    | RenderNew                  // the signup form again
    | RedirectToIndex            // the path of the agent collection
    | RedirectToAgent(index: nat)
    | RedirectBackOrDefault      // back, or to "/" when there is no back
    | RedirectHome               // "/"
    | RenderTemplate             // the action's own view

  // ---------------------------------------------------------------------
  // Signup

  /** The record that is saved: an anonymous visitor's signup takes the
      session's OpenID identifier, overwriting whatever the form sent. */
  function SignupRecord(attrs: Agent, sessionOpenId: Option<string>, current: CurrentAgent): (a: Agent)
    ensures a == attrs.(openid := a.openid)
    ensures a.openid == if current.Anonymous? then sessionOpenId else attrs.openid
  {
    if current.Anonymous? then attrs.(openid := sessionOpenId) else attrs
  }

  /** The notice a successful signup leaves: an activation note only when the
      class uses activation, and which note by the new agent's state. */
  function SignupInfo(cls: AgentClass, current: CurrentAgent, a: Agent): (r: Info)
    ensures r.notice == if current.Signed? then AgentCreated(cls.name) else ThanksForSigningUp
    ensures r.activation.Some? <==> cls.activation
    ensures r.activation == Some(CheckYourEmail) <==> cls.activation && !a.active
    ensures r.activation == Some(ActivationEmailSent(cls.name)) <==> cls.activation && a.active
  {
    var notice := if current.Signed? then AgentCreated(cls.name) else ThanksForSigningUp;
    if !cls.activation then Info(notice, None)
    else Info(notice, Some(if a.active then ActivationEmailSent(cls.name) else CheckYourEmail))
  }

  // ---------------------------------------------------------------------
  // Activation

  /** The model's `activate`: the agent becomes active and its code is spent. */
  function Activated(a: Agent): (b: Agent)
    ensures b.active && b.activationCode.None?
    ensures b.(active := a.active, activationCode := a.activationCode) == a
  {
    a.(active := true, activationCode := None)
  }

  /** Who `activate` makes the current agent: the anonymous agent for a blank
      code, the first agent holding the code otherwise, and the anonymous agent
      when none holds it. */
  function ResolveActivation(agents: seq<Agent>, code: Option<string>): (c: CurrentAgent)
    ensures Blank(code) ==> c == Anonymous
    ensures c.Signed? ==> c.index < |agents| && code.Some? && agents[c.index].activationCode == code
    ensures c.Signed? ==> forall j :: 0 <= j < c.index ==> agents[j].activationCode != code
    ensures !Blank(code) && c == Anonymous ==>
      forall j :: 0 <= j < |agents| ==> agents[j].activationCode != code
  {
    if Blank(code) then Anonymous
    else match FindFirst(agents, ByActivationCode(code.value))
      case Some(i) => Signed(i)
      case None => Anonymous
  }

  /** `activate` is called on the resolved agent only when it is a stored
      agent, of a class with `active?`, that is not active yet. */
  predicate ActivationApplies(agents: seq<Agent>, code: Option<string>, respondsToActive: bool) {
    var c := ResolveActivation(agents, code);
    c.Signed? && respondsToActive && !agents[c.index].active
  }

  /** The agent table after `activate`. */
  function AfterActivation(agents: seq<Agent>, code: Option<string>, respondsToActive: bool): (s: seq<Agent>)
    ensures |s| == |agents|
    ensures forall i :: 0 <= i < |agents| && agents[i].active ==> s[i] == agents[i]
    ensures forall i :: 0 <= i < |agents| && s[i] != agents[i] ==>
      ResolveActivation(agents, code) == Signed(i) && s[i] == Activated(agents[i])
    ensures ActivationApplies(agents, code, respondsToActive) <==> s != agents
    ensures Blank(code) || !respondsToActive ==> s == agents
  {
    var c := ResolveActivation(agents, code);
    if ActivationApplies(agents, code, respondsToActive) then
      assert agents[c.index := Activated(agents[c.index])][c.index] != agents[c.index];
      agents[c.index := Activated(agents[c.index])]
    else agents
  }

  /** Following the same activation link twice changes nothing the second
      time, provided that no two agents share the code. A blank code needs no
      such proviso: it activates nobody. */
  lemma ActivationIsIdempotent(agents: seq<Agent>, code: Option<string>, respondsToActive: bool)
    requires !Blank(code) ==> forall i, j :: 0 <= i < j < |agents| && agents[i].activationCode == code ==>
      agents[j].activationCode != code
    ensures var once := AfterActivation(agents, code, respondsToActive);
      AfterActivation(once, code, respondsToActive) == once
  {
    var once := AfterActivation(agents, code, respondsToActive);
    if ActivationApplies(agents, code, respondsToActive) {
      var i := ResolveActivation(agents, code).index;
      assert once == agents[i := Activated(agents[i])];
      forall j | 0 <= j < |once|
        ensures once[j].activationCode != code
      {
        if j == i {
          assert once[j].activationCode.None?;
        } else if j < i {
          assert agents[j].activationCode != code;
        } else {
          assert agents[i].activationCode == code;
        }
      }
      assert ResolveActivation(once, code) == Anonymous;
    } else {
      assert once == agents;
    }
  }

  // ---------------------------------------------------------------------
  // The controller

  class AgentDirectory {
    var agents: seq<Agent>
    var current: CurrentAgent
    var flash: Flash
    const cls: AgentClass

    /** The current agent, when there is one, is stored. */
    ghost predicate Valid()
      reads this
    {
      current.Signed? ==> current.index < |agents|
    }

    constructor (cls: AgentClass, agents: seq<Agent>)
      ensures Valid()
      ensures this.cls == cls && this.agents == agents && current == Anonymous
      ensures flash == Flash(None, None)
    {
      this.cls := cls;
      this.agents := agents;
      current := Anonymous;
      flash := Flash(None, None);
    }

    /** `authenticated?`: the current slot holds a stored agent. */
    function Authenticated(): (b: bool)
      reads this
      requires Valid()
      ensures b <==> current.Signed? && current.index < |agents|
    {
      current.Signed?
    }

    /** `create`. `valid` is the record's validation: when it fails, `save!`
        raises RecordInvalid and the form is rendered with nothing changed.
        Otherwise the record is stored; an anonymous visitor becomes the new
        agent and sees their page, an authenticated agent goes back to the
        collection. */
    method Signup(attrs: Agent, sessionOpenId: Option<string>, valid: Agent -> bool)
      returns (resp: AgentResponse)
      requires Valid()
      modifies this
      ensures Valid()
      ensures var a := SignupRecord(attrs, sessionOpenId, old(current));
        !valid(a) ==> agents == old(agents) && current == old(current) && flash == old(flash) && resp == RenderNew
      ensures var a := SignupRecord(attrs, sessionOpenId, old(current));
        valid(a) ==>
          && agents == old(agents) + [a]
          && flash == old(flash).(info := Some(SignupInfo(cls, old(current), a)))
          && (old(current).Signed? ==> current == old(current) && resp == RedirectToIndex)
          && (old(current).Anonymous? ==> current == Signed(|old(agents)|) && resp == RedirectToAgent(|old(agents)|))
    {
      var agent := attrs;
      if !Authenticated() {
        agent := agent.(openid := sessionOpenId);
      }
      if !valid(agent) {
        resp := RenderNew;
        return;
      }
      var id := |agents|;
      var wasAuthenticated := Authenticated();
      agents := agents + [agent];
      var notice := ThanksForSigningUp;
      if wasAuthenticated {
        resp := RedirectToIndex;
        notice := AgentCreated(cls.name);
      } else {
        current := Signed(id);
        resp := RedirectToAgent(id);
      }
      var info := Info(notice, None);
      if cls.activation {
        info := info.(activation := Some(if agent.active then ActivationEmailSent(cls.name) else CheckYourEmail));
      }
      flash := flash.(info := Some(info));
    }

    /** `activate`: the current slot is overwritten by the agent the code
        resolves to (a failed lookup leaves nobody signed in), that agent is
        activated when it is not active yet, and the action always redirects
        back. */
    method Activate(code: Option<string>) returns (resp: AgentResponse)
      requires Valid()
      modifies this
      ensures Valid()
      ensures current == ResolveActivation(old(agents), code)
      ensures agents == AfterActivation(old(agents), code, cls.respondsToActive)
      ensures flash == if ActivationApplies(old(agents), code, cls.respondsToActive)
        then old(flash).(info := Some(Info(SignupComplete, None))) else old(flash)
      ensures resp == RedirectBackOrDefault
    {
      if Blank(code) {
        current := Anonymous;
      } else {
        var found := FindFirst(agents, ByActivationCode(code.value));
        current := if found.Some? then Signed(found.value) else Anonymous;
      }
      if Authenticated() && cls.respondsToActive && !agents[current.index].active {
        agents := agents[current.index := Activated(agents[current.index])];
        flash := flash.(info := Some(Info(SignupComplete, None)));
      }
      resp := RedirectBackOrDefault;
    }

    /** `forgot_password`. With no email parameter the form is shown; an
        address nobody has sets the error and shows the form again; otherwise
        the first agent with that address gets `token` as its reset code and
        the action redirects home. */
    method ForgotPassword(email: Option<string>, token: string) returns (resp: AgentResponse)
      requires Valid()
      modifies this
      ensures Valid()
      ensures current == old(current)
      ensures email.None? ==> agents == old(agents) && flash == old(flash) && resp == RenderTemplate
      ensures email.Some? && FindFirst(old(agents), ByEmail(email.value)).None? ==>
        agents == old(agents) && flash == old(flash).(error := Some(NobodyWithThatEmail)) && resp == RenderTemplate
      ensures email.Some? && FindFirst(old(agents), ByEmail(email.value)).Some? ==>
        var i := FindFirst(old(agents), ByEmail(email.value)).value;
        && agents == old(agents)[i := old(agents)[i].(resetCode := Some(token))]
        && flash == old(flash).(info := Some(Info(ResetLinkSent, None)))
        && resp == RedirectHome
    {
      resp := RenderTemplate;
      if email.Some? {
        var found := FindFirst(agents, ByEmail(email.value));
        if found.None? {
          flash := flash.(error := Some(NobodyWithThatEmail));
          return;
        }
        var i := found.value;
        agents := agents[i := agents[i].(resetCode := Some(token))];
        flash := flash.(info := Some(Info(ResetLinkSent, None)));
        resp := RedirectHome;
      }
    }

    /** `reset_password` as the source has it. The code parameter goes to the
        finder unchecked, so a missing code finds the first agent with no reset
        code. An unknown code sets the error and redirects home; a blank
        password shows the form; `valid` judges the agent with the new password
        and its confirmation, and only a valid agent is saved with its reset
        code spent. The current agent is never changed: the source assigns a
        local variable. */
    method ResetPassword(code: Option<string>, password: Option<string>, confirmation: Option<string>,
                         valid: (Agent, Option<string>) -> bool)
      returns (resp: AgentResponse)
      requires Valid()
      modifies this
      ensures Valid()
      ensures current == old(current)
      ensures FindFirst(old(agents), ByResetCode(code)).None? ==>
        agents == old(agents) && flash == old(flash).(error := Some(InvalidResetCode)) && resp == RedirectHome
      ensures FindFirst(old(agents), ByResetCode(code)).Some? && Blank(password) ==>
        agents == old(agents) && flash == old(flash) && resp == RenderTemplate
      ensures FindFirst(old(agents), ByResetCode(code)).Some? && !Blank(password) ==>
        var i := FindFirst(old(agents), ByResetCode(code)).value;
        var updated := old(agents)[i].(password := password);
        if valid(updated, confirmation) then
          && agents == old(agents)[i := updated.(resetCode := None)]
          && flash == old(flash).(info := Some(Info(PasswordReset, None)))
          && resp == RedirectHome
        else agents == old(agents) && flash == old(flash) && resp == RenderTemplate
    {
      var found := FindFirst(agents, ByResetCode(code));
      if found.None? {
        flash := flash.(error := Some(InvalidResetCode));
        resp := RedirectHome;
        return;
      }
      resp := RenderTemplate;
      if Blank(password) {
        return;
      }
      var i := found.value;
      var updated := agents[i].(password := password);
      if valid(updated, confirmation) {
        agents := agents[i := updated.(resetCode := None)];
        flash := flash.(info := Some(Info(PasswordReset, None)));
        resp := RedirectHome;
      }
    }

    /** `reset_password` with a blank code treated as an unknown one: no agent
        without a reset code can be reached, and otherwise the action is the
        source's. */
    method ResetPasswordGuarded(code: Option<string>, password: Option<string>, confirmation: Option<string>,
                                valid: (Agent, Option<string>) -> bool)
      returns (resp: AgentResponse)
      requires Valid()
      modifies this
      ensures Valid()
      ensures current == old(current)
      ensures Blank(code) ==>
        agents == old(agents) && flash == old(flash).(error := Some(InvalidResetCode)) && resp == RedirectHome
      ensures |agents| == |old(agents)|
      ensures forall i :: 0 <= i < |old(agents)| && old(agents)[i].resetCode.None? ==> agents[i] == old(agents)[i]
      ensures !Blank(code) && FindFirst(old(agents), ByResetCode(code)).None? ==>
        agents == old(agents) && flash == old(flash).(error := Some(InvalidResetCode)) && resp == RedirectHome
      ensures !Blank(code) && FindFirst(old(agents), ByResetCode(code)).Some? && Blank(password) ==>
        agents == old(agents) && flash == old(flash) && resp == RenderTemplate
      ensures !Blank(code) && FindFirst(old(agents), ByResetCode(code)).Some? && !Blank(password) ==>
        var i := FindFirst(old(agents), ByResetCode(code)).value;
        var updated := old(agents)[i].(password := password);
        if valid(updated, confirmation) then
          && agents == old(agents)[i := updated.(resetCode := None)]
          && flash == old(flash).(info := Some(Info(PasswordReset, None)))
          && resp == RedirectHome
        else agents == old(agents) && flash == old(flash) && resp == RenderTemplate
    {
      if Blank(code) {
        flash := flash.(error := Some(InvalidResetCode));
        resp := RedirectHome;
        return;
      }
      resp := ResetPassword(code, password, confirmation, valid);
    }
  }

  /** A visitor who opens the reset form without a code and submits a new
      password resets the password of the first agent who never asked for a
      reset. */
  method ResetWithoutCodeScenario(cls: AgentClass)
  {
    var alice := Agent("alice", Some("alice@example.org"), None, Some("secret"), true, None, None);
    var dir := new AgentDirectory(cls, [alice]);
    var resp := dir.ResetPassword(None, Some("taken"), Some("taken"), (a: Agent, c: Option<string>) => true);
    assert !Blank(Some("taken")) by { assert !IsBlankChar("taken"[0]); }
    assert resp == RedirectHome;
    assert dir.agents[0].password == Some("taken");
    assert dir.flash.info == Some(Info(PasswordReset, None));

    var dir' := new AgentDirectory(cls, [alice]);
    var resp' := dir'.ResetPasswordGuarded(None, Some("taken"), Some("taken"), (a: Agent, c: Option<string>) => true);
    assert dir'.agents == [alice] && dir'.flash.error == Some(InvalidResetCode);
  }
}
