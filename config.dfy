/** The shared constants of the attribute-rule configuration and the choice of
    the geodatabase connection file for an environment. */
module Config {
  import opened Wrappers
  import opened Text
  import opened Errors

  /** `config.triggers` */
  datatype Trigger = Update | Insert | Delete

  function TriggerName(t: Trigger): string {
    match t
    case Update => "UPDATE"
    case Insert => "INSERT"
    case Delete => "DELETE"
  }

  /** The trigger a name stands for; each trigger has its own name. */
  function ParseTrigger(s: string): (r: Option<Trigger>)
    ensures forall t :: r == Some(t) <==> TriggerName(t) == s
  {
    if s == "UPDATE" then Some(Update)
    else if s == "INSERT" then Some(Insert)
    else if s == "DELETE" then Some(Delete)
    else None
  }

  /** `config.rule_types` */
  datatype RuleType = Calculation | Constraint

  function RuleTypeName(t: RuleType): string {
    match t
    case Calculation => "CALCULATION"
    case Constraint => "CONSTRAINT"
  }

  function ParseRuleType(s: string): (r: Option<RuleType>)
    ensures forall t :: r == Some(t) <==> RuleTypeName(t) == s
  {
    if s == "CALCULATION" then Some(Calculation)
    else if s == "CONSTRAINT" then Some(Constraint)
    else None
  }

  /** `config.editable` */
  datatype Editability = Editable | NonEditable

  function EditabilityName(e: Editability): string {
    match e
    case Editable => "EDITABLE"
    case NonEditable => "NONEDITABLE"
  }

  function ParseEditability(s: string): (r: Option<Editability>)
    ensures forall e :: r == Some(e) <==> EditabilityName(e) == s
  {
    if s == "EDITABLE" then Some(Editable)
    else if s == "NONEDITABLE" then Some(NonEditable)
    else None
  }

  const ProjectFolder := "pro-project"
  const LocalConnection := "localhost.udeq@uicadmin.sde"
  const DevConnection := "stage.sde"
  const ProdConnection := "prod.sde"

  /** The connection file of a known environment (an absent selector means local). */
  function ConnectionFile(env: Option<string>): Option<string> {
    match env
    case None => Some(LocalConnection)
    case Some(e) =>
      if e == "local" then Some(LocalConnection)
      else if e == "dev" then Some(DevConnection)
      else if e == "prod" then Some(ProdConnection)
      else None
  }

  /** `get_sde_path_for(env)`; `root` is the repository directory three levels
      above the configuration module. */
  function SdePathFor(root: string, env: Option<string>): (r: Result<string, Error>)
    ensures r.Ok? <==> env == None || env == Some("local") || env == Some("dev") || env == Some("prod")
    ensures env == None || env == Some("local") ==> r == Ok(PathJoin(PathJoin(root, ProjectFolder), LocalConnection))
    ensures env == Some("dev") ==> r == Ok(PathJoin(PathJoin(root, ProjectFolder), DevConnection))
    ensures env == Some("prod") ==> r == Ok(PathJoin(PathJoin(root, ProjectFolder), ProdConnection))
    ensures r.Err? ==> r.error == OtherError(env.value + " env not found")
  {
    var sde := PathJoin(root, ProjectFolder);
    match ConnectionFile(env)
    case Some(file) => Ok(PathJoin(sde, file))
    case None => Err(OtherError(env.value + " env not found"))
  }

  /** Every connection path lies directly inside the `pro-project` folder under
      the root: its path components are the root's, then `pro-project`, then
      the file name. */
  lemma SdePathUnderProject(root: string, env: Option<string>)
    requires SdePathFor(root, env).Ok?
    ensures Split(SdePathFor(root, env).value, '/')
         == Split(root, '/') + [ProjectFolder, ConnectionFile(env).value]
  {
    var file := ConnectionFile(env).value;
    PathJoinComponents(root, ProjectFolder);
    PathJoinComponents(PathJoin(root, ProjectFolder), file);
  }
}
