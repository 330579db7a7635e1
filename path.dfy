/**
 * `generatePersonalizedPath` of js/auth.js: a fixed rule table over the
 * diagnostic answers q1..q4 and the business goal that emits onboarding tasks,
 * numbering them with a running counter.
 */
module PersonalizedPath {
  import opened Wrappers
  import opened Dom

  /** The five diagnostic answers as registration stores them. */
  datatype Diagnostic = Diagnostic(q1: Value, q2: Value, q3: Value, q4: Value, q5: Value)

  /** A task without its number: what one row of the rule table emits. */
  datatype TaskInfo = TaskInfo(
    title: string, description: string, category: string, priority: string,
    timeEstimate: string, difficulty: string)

  datatype Task = Task(
    id: int, title: string, description: string, category: string, priority: string,
    timeEstimate: string, difficulty: string, status: string)

  const Pending := "pending"

  /** The task numbered `id` built from `info`, not yet done. */
  function MakeTask(id: int, info: TaskInfo): Task {
    Task(id, info.title, info.description, info.category, info.priority, info.timeEstimate, info.difficulty, Pending)
  }

  /** The rows of the rule table, one per task the generator can emit. */
  datatype Row =
    | Welcome | TrackIncome | SeparateExpenses | FirstPost | ProfitableProduct
    | ProfitMargin | Promotion | WhatsAppProfile | CustomerDatabase

  // The rows of the table, as auth.js writes them.
  const WelcomeInfo := TaskInfo("¡Bienvenido a SUMAK!", "Completa tu perfil y explora el panel de control",
    "Introducción", "alta", "5 minutos", "Muy fácil")
  const TrackIncomeInfo := TaskInfo("Crear tu primer registro de ingresos y gastos",
    "Aprende a registrar cada venta y gasto del día usando una plantilla simple",
    "Finanzas", "alta", "15 minutos", "Fácil")
  const SeparateExpensesInfo := TaskInfo("Separar gastos personales de los del negocio",
    "Identifica qué gastos son del negocio y cuáles son personales",
    "Finanzas", "alta", "10 minutos", "Fácil")
  const FirstPostInfo := TaskInfo("Crear tu primera publicación en redes sociales",
    "Toma una foto de tu producto más vendido y publícala en Facebook/Instagram",
    "Marketing", "media", "10 minutos", "Fácil")
  const ProfitableProductInfo := TaskInfo("Identificar tu producto más rentable",
    "Calcula cuánto ganas realmente con cada producto que vendes",
    "Finanzas", "media", "20 minutos", "Media")
  const ProfitMarginInfo := TaskInfo("Calcular tu margen de ganancia",
    "Aprende a calcular cuánto ganas de cada 100 soles que vendes",
    "Finanzas", "media", "15 minutos", "Media")
  const PromotionInfo := TaskInfo("Crear una promoción efectiva",
    "Diseña una oferta que atraiga más clientes sin perder dinero",
    "Ventas", "media", "15 minutos", "Media")
  const WhatsAppProfileInfo := TaskInfo("Optimizar tu perfil de WhatsApp Business",
    "Configura un catálogo y respuestas automáticas",
    "Marketing", "media", "20 minutos", "Media")
  const CustomerDatabaseInfo := TaskInfo("Crear una base de datos de clientes",
    "Registra nombres y preferencias de tus clientes frecuentes",
    "Ventas", "media", "15 minutos", "Fácil")

  /** What each row emits. */
  function Info(row: Row): TaskInfo {
    match row
    case Welcome => WelcomeInfo
    case TrackIncome => TrackIncomeInfo
    case SeparateExpenses => SeparateExpensesInfo
    case FirstPost => FirstPostInfo
    case ProfitableProduct => ProfitableProductInfo
    case ProfitMargin => ProfitMarginInfo
    case Promotion => PromotionInfo
    case WhatsAppProfile => WhatsAppProfileInfo
    case CustomerDatabase => CustomerDatabaseInfo
  }

  // The conditions of the rule table.
  predicate FiresQ1(d: Diagnostic) { d.q1 == Some("no") }
  predicate FiresQ2(d: Diagnostic) { d.q2 == Some("no") || d.q2 == Some("aveces") }
  predicate FiresQ3(d: Diagnostic) { d.q3 == Some("no") || d.q3 == Some("aveces") }
  predicate FiresQ4(d: Diagnostic) { d.q4 == Some("no") || d.q4 == Some("mas-o-menos") }
  predicate KnownGoal(goal: Value) {
    goal == Some("finanzas") || goal == Some("ventas") || goal == Some("marketing") || goal == Some("clientes")
  }

  /** The one task the goal adds, if any. */
  function GoalTask(goal: Value): (t: Option<Row>)
    ensures t.Some? <==> KnownGoal(goal)
  {
    match goal
    case Some("finanzas") => Some(ProfitMargin)
    case Some("ventas") => Some(Promotion)
    case Some("marketing") => Some(WhatsAppProfile)
    case Some("clientes") => Some(CustomerDatabase)
    case _ => None
  }

  function If(b: bool, t: Row): seq<Row> {
    if b then [t] else []
  }

  function OptionToSeq(t: Option<Row>): seq<Row> {
    if t.Some? then [t.value] else []
  }

  /** The rows of the rule table that fire, in table order. */
  function Selected(d: Diagnostic, goal: Value): seq<Row> {
    [Welcome] + If(FiresQ1(d), TrackIncome) + If(FiresQ2(d), SeparateExpenses)
    + If(FiresQ3(d), FirstPost) + If(FiresQ4(d), ProfitableProduct) + OptionToSeq(GoalTask(goal))
  }

  /** The tasks of `rows`, pending and numbered `first`, `first + 1`, ... in order. */
  function Numbered(rows: seq<Row>, first: int): (tasks: seq<Task>)
    ensures |tasks| == |rows|
  {
    if rows == [] then [] else [MakeTask(first, Info(rows[0]))] + Numbered(rows[1..], first + 1)
  }

  /** The task at position `i` is row `i`'s, numbered `first + i`. */
  lemma {:induction false} NumberedAt(rows: seq<Row>, first: int, i: nat)
    requires i < |rows|
    ensures Numbered(rows, first)[i] == MakeTask(first + i, Info(rows[i]))
  {
    if i > 0 {
      NumberedAt(rows[1..], first + 1, i - 1);
    }
  }

  /** The path the generator produces for an entrepreneur's answers and goal. */
  function PathFor(d: Diagnostic, goal: Value): seq<Task> {
    Numbered(Selected(d, goal), 1)
  }

  /** Pushing one more task with the next number extends the numbering. */
  lemma {:induction false} NumberedSnoc(rows: seq<Row>, first: int, r: Row)
    ensures Numbered(rows + [r], first) == Numbered(rows, first) + [MakeTask(first + |rows|, Info(r))]
  {
    if rows != [] {
      assert (rows + [r])[1..] == rows[1..] + [r];
      NumberedSnoc(rows[1..], first + 1, r);
    }
  }

  /** `tasks.push({id: taskId++, ...})` for one row of the table. */
  method Push(tasks: seq<Task>, taskId: int, ghost emitted: seq<Row>, row: Row)
    returns (tasks': seq<Task>, taskId': int)
    requires tasks == Numbered(emitted, 1) && taskId == |emitted| + 1
    ensures tasks' == Numbered(emitted + [row], 1) && taskId' == |emitted + [row]| + 1
  {
    NumberedSnoc(emitted, 1, row);
    tasks' := tasks + [MakeTask(taskId, Info(row))];
    taskId' := taskId + 1;
  }

  /** `if (fires) tasks.push({id: taskId++, ...})`. */
  method PushWhen(fires: bool, tasks: seq<Task>, taskId: int, ghost emitted: seq<Row>, row: Row)
    returns (tasks': seq<Task>, taskId': int)
    requires tasks == Numbered(emitted, 1) && taskId == |emitted| + 1
    ensures tasks' == Numbered(emitted + If(fires, row), 1) && taskId' == |emitted + If(fires, row)| + 1
  {
    tasks', taskId' := tasks, taskId;
    if fires {
      tasks', taskId' := Push(tasks, taskId, emitted, row);
    } else {
      assert emitted + If(fires, row) == emitted;
    }
  }

  /**
   * generatePersonalizedPath: pushes the welcome task, then one task per
   * triggered answer q1..q4, then the goal's task, numbering them with a
   * counter that starts at 1. q5 is never read. The ghost `emitted` lists
   * the rows pushed so far.
   */
  method GeneratePersonalizedPath(diagnostic: Diagnostic, goal: Value) returns (tasks: seq<Task>)
    ensures tasks == PathFor(diagnostic, goal)
  {
    var taskId;
    tasks, taskId := PushWhen(true, [], 1, [], Welcome);
    ghost var emitted := If(true, Welcome);
    tasks, taskId := PushWhen(FiresQ1(diagnostic), tasks, taskId, emitted, TrackIncome);
    emitted := emitted + If(FiresQ1(diagnostic), TrackIncome);
    tasks, taskId := PushWhen(FiresQ2(diagnostic), tasks, taskId, emitted, SeparateExpenses);
    emitted := emitted + If(FiresQ2(diagnostic), SeparateExpenses);
    tasks, taskId := PushWhen(FiresQ3(diagnostic), tasks, taskId, emitted, FirstPost);
    emitted := emitted + If(FiresQ3(diagnostic), FirstPost);
    tasks, taskId := PushWhen(FiresQ4(diagnostic), tasks, taskId, emitted, ProfitableProduct);
    emitted := emitted + If(FiresQ4(diagnostic), ProfitableProduct);
    // the switch on the goal pushes at most one task
    var goalTask := GoalTask(goal);
    if goalTask.Some? {
      tasks, taskId := PushWhen(true, tasks, taskId, emitted, goalTask.value);
      emitted := emitted + If(true, goalTask.value);
    }
    assert emitted == Selected(diagnostic, goal);
  }

  function B2I(b: bool): nat { if b then 1 else 0 }

  /** Tasks are numbered 1, 2, ..., n in emission order and all start pending. */
  lemma PathNumbering(d: Diagnostic, goal: Value)
    ensures forall i | 0 <= i < |PathFor(d, goal)| :: PathFor(d, goal)[i].id == i + 1
    ensures forall i | 0 <= i < |PathFor(d, goal)| :: PathFor(d, goal)[i].status == Pending
  {
    forall i | 0 <= i < |PathFor(d, goal)| ensures PathFor(d, goal)[i] == MakeTask(1 + i, Info(Selected(d, goal)[i])) {
      NumberedAt(Selected(d, goal), 1, i);
    }
  }

  /** The welcome task always comes first, numbered 1, in "Introducción" with priority "alta". */
  lemma PathStartsWithWelcome(d: Diagnostic, goal: Value)
    ensures |PathFor(d, goal)| >= 1
    ensures PathFor(d, goal)[0] == MakeTask(1, Info(Welcome))
    ensures PathFor(d, goal)[0].category == "Introducción" && PathFor(d, goal)[0].priority == "alta"
  {
    NumberedAt(Selected(d, goal), 1, 0);
  }

  /** One task for the welcome, one per triggered answer, one for a known goal: between 1 and 6. */
  lemma PathLength(d: Diagnostic, goal: Value)
    ensures |PathFor(d, goal)| == 1 + B2I(FiresQ1(d)) + B2I(FiresQ2(d)) + B2I(FiresQ3(d))
                                 + B2I(FiresQ4(d)) + B2I(KnownGoal(goal))
    ensures 1 <= |PathFor(d, goal)| <= 6
  {
  }

  /** The fifth answer never influences the path. */
  lemma PathIgnoresQ5(d: Diagnostic, q5: Value, goal: Value)
    ensures PathFor(d.(q5 := q5), goal) == PathFor(d, goal)
  {
  }

  /** The goal task, when present, is the last task. */
  lemma GoalTaskIsLast(d: Diagnostic, goal: Value)
    requires KnownGoal(goal)
    ensures var p := PathFor(d, goal); p[|p| - 1] == MakeTask(|p|, Info(GoalTask(goal).value))
  {
    var s := Selected(d, goal);
    assert s[|s| - 1] == GoalTask(goal).value;
    NumberedAt(s, 1, |s| - 1);
  }

  /** Every generated task has priority "alta" or "media". */
  lemma PathPriorities(d: Diagnostic, goal: Value)
    ensures forall i | 0 <= i < |PathFor(d, goal)| :: PathFor(d, goal)[i].priority in {"alta", "media"}
  {
    forall r: Row ensures Info(r).priority in {"alta", "media"} {}
    forall i | 0 <= i < |PathFor(d, goal)| ensures PathFor(d, goal)[i].priority in {"alta", "media"} {
      NumberedAt(Selected(d, goal), 1, i);
    }
  }

  /** q1 answered "no", other answers not triggering, goal "ventas": welcome, income tracking, promotion. */
  lemma ScenarioSalesGoal()
    ensures PathFor(Diagnostic(Some("no"), Some("si"), Some("si"), Some("si"), None), Some("ventas"))
         == [MakeTask(1, Info(Welcome)), MakeTask(2, Info(TrackIncome)), MakeTask(3, Info(Promotion))]
  {
    var d := Diagnostic(Some("no"), Some("si"), Some("si"), Some("si"), None);
    assert Selected(d, Some("ventas")) == [Welcome, TrackIncome, Promotion];
  }
}
