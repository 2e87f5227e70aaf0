/** Per-collection API rules (src/rules.rs) and the request checks that guard them. */
module Rules {
  import opened Wrappers
  import opened Utf8
  import opened FilterTree
  import opened FilterParser
  import opened FilterText
  import opened FilterPrinter
  import opened Json
  import opened Sql
  import opened FilterSql
  import opened FilterEval

  datatype Who = Admin | User(col: string, id: string) | Guest

  /** A rule column: NULL is admin only, the empty string is public. */
  type RuleText = Option<string>

  datatype RuleSet = RuleSet(list: RuleText, view: RuleText, create: RuleText, update: RuleText, delete: RuleText)

  /** Guest denials are 401, authenticated ones 403. */
  datatype Denial = Unauthorized | Forbidden

  function Deny(w: Who): Denial {
    if w.Guest? then Unauthorized else Forbidden
  }

  function AuthId(w: Who): string {
    if w.User? then w.id else ""
  }

  /** `check_rule`: refused, allowed outright, or allowed if an expression holds. */
  function CheckRule(w: Who, rule: RuleText): Result<Option<string>, Denial> {
    if w.Admin? then Ok(None)
    else match rule
      case None => Err(Deny(w))
      case Some(r) => if r == "" then Ok(None) else Ok(Some(r))
  }

  function ParseRule(o: Oracles, rule: string): Result<Node, ParseError> {
    Parse(o.realOf, Rule, rule)
  }

  /** `compile_rule`. */
  function CompileRule(o: Oracles, rule: string, auth: string): Option<(seq<Tok>, seq<Value>)> {
    match ParseRule(o, rule)
    case Err(_) => None
    case Ok(n) => Some((SideToks(n), Binds(o, n, auth)))
  }

  /** `eval_rule_mem`: anything that does not parse is false. */
  predicate EvalRule(o: Oracles, rule: string, auth: string, data: Object) {
    match ParseRule(o, rule)
    case Err(_) => false
    case Ok(n) => Eval(o, n, auth, data)
  }

  const OWN := "id = @request.auth.id"
  const AUTHED := "@request.auth.id != ''"

  /** `defaults`. */
  function Defaults(isAuth: bool): RuleSet {
    if isAuth then RuleSet(None, None, Some(""), Some(OWN), Some(OWN))
    else RuleSet(Some(""), Some(""), Some(AUTHED), Some(AUTHED), Some(AUTHED))
  }

  /** NULL, public, or an expression that parses. */
  predicate RuleOk(o: Oracles, rule: RuleText) {
    rule.None? || rule.value == "" || ParseRule(o, rule.value).Ok?
  }

  predicate RulesOk(o: Oracles, r: RuleSet) {
    RuleOk(o, r.list) && RuleOk(o, r.view) && RuleOk(o, r.create) && RuleOk(o, r.update) && RuleOk(o, r.delete)
  }

  /** `read_rule`: None is an absent key, Some(None) is JSON null. */
  function ReadRule(o: Oracles, body: Object, key: string): Result<Option<RuleText>, ()> {
    if key !in body then Ok(None)
    else match body[key]
      case JNull => Ok(Some(None))
      case JStr(s) => if s != "" && CompileRule(o, s, "").None? then Err(()) else Ok(Some(Some(s)))
      case _ => Err(())
  }

  /** A rule that `read_rule` lets through compiles for every caller, not only for the dummy id it
      was tried with. */
  lemma ReadRuleOk(o: Oracles, body: Object, key: string, auth: string)
    requires ReadRule(o, body, key).Ok? && ReadRule(o, body, key).value.Some?
    ensures RuleOk(o, ReadRule(o, body, key).value.value)
    ensures var r := ReadRule(o, body, key).value.value;
            r.Some? && r.value != "" ==> CompileRule(o, r.value, auth).Some?
  {
    hide Parse, SideToks, Binds;
  }

  /** A character takes at most four bytes. */
  lemma {:induction false} EncodedSize(s: string)
    ensures |Encode(s)| <= 4 * |s|
  {
    if s != "" {
      EncodedSize(s[1..]);
    }
  }

  /** The default rules parse, whatever the float parser does. */
  lemma DefaultsParse(o: Oracles)
    ensures ParseRule(o, OWN) == Ok(Cmp(Col("id"), Eq, Auth))
    ensures ParseRule(o, AUTHED) == Ok(Cmp(Auth, Ne, Val(Text(""))))
  {
    hide Parse, Encode;
    EncodedSize(OWN);
    EncodedSize(AUTHED);
    assert Doubled("") == "";
    assert OWN == "id" + (" " + ("=" + (" " + TOKEN)));
    assert AUTHED == TOKEN + (" " + ("!=" + (" " + "''")));
    SpacedParses(Rule, o.realOf, o.realText, Col("id"), Eq, Auth, OWN);
    SpacedParses(Rule, o.realOf, o.realText, Auth, Ne, Val(Text("")), AUTHED);
  }

  lemma DefaultsOk(o: Oracles, isAuth: bool)
    ensures RulesOk(o, Defaults(isAuth))
  {
    hide ParseRule;
    DefaultsParse(o);
  }
}
