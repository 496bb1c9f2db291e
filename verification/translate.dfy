/**
 * Spanish display labels for the enumeration keys of task status, task
 * priority and user role. Unknown keys pass through unchanged.
 */
module Translate {
  import Entities

  /** The label of each known key, in the order the switch lists them. */
  const BadgeTable: seq<(string, string)> := [
    ("new", "Nuevo"), ("pending", "Pendiente"), ("in_progress", "En progreso"),
    ("completed", "Completado"), ("in_review", "En revisión"), ("done", "Finalizado"),
    ("low", "Bajo"), ("medium", "Medio"), ("high", "Alto"), ("critical", "Crítico"),
    ("user", "Usuario"), ("admin", "Administrador"), ("maintainer", "Mantenedor")
  ]

  /** The thirteen keys the switch knows. */
  function BadgeKeys(): (r: set<string>) {
    {"new", "pending", "in_progress", "completed", "in_review", "done",
     "low", "medium", "high", "critical", "user", "admin", "maintainer"}
  }

  /** No key appears twice in a table. */
  ghost predicate DistinctKeys(table: seq<(string, string)>) {
    forall i, j | 0 <= i < j < |table| :: table[i].0 != table[j].0
  }

  /** The role strings the user forms offer. */
  const RoleValues: seq<string> := ["admin", "user", "maintainer"]

  /** Table lookup with a pass-through default: the reference definition of the translation. */
  function Lookup(table: seq<(string, string)>, key: string): (r: string) {
    if table == [] then key
    else if table[0].0 == key then table[0].1
    else Lookup(table[1..], key)
  }

  /** The translation itself, a switch over the known keys. */
  function TranslateBadge(key: string): (r: string) {
    match key
    case "new" => "Nuevo"
    case "pending" => "Pendiente"
    case "in_progress" => "En progreso"
    case "completed" => "Completado"
    case "in_review" => "En revisión"
    case "done" => "Finalizado"
    case "low" => "Bajo"
    case "medium" => "Medio"
    case "high" => "Alto"
    case "critical" => "Crítico"
    case "user" => "Usuario"
    case "admin" => "Administrador"
    case "maintainer" => "Mantenedor"
    case _ => key
  }

  /** Looking up a key the table lacks returns the key. */
  lemma {:induction false} LookupMissing(table: seq<(string, string)>, key: string)
    requires forall i | 0 <= i < |table| :: table[i].0 != key
    ensures Lookup(table, key) == key
  {
    if table != [] {
      LookupMissing(table[1..], key);
    }
  }

  /** Looking up the key of entry i returns that entry's label when keys are distinct. */
  lemma {:induction false} LookupHit(table: seq<(string, string)>, i: nat)
    requires i < |table| && DistinctKeys(table)
    ensures Lookup(table, table[i].0) == table[i].1
  {
    if i > 0 {
      assert table[0].0 != table[i].0;
      assert table[1..][i - 1] == table[i];
      LookupHit(table[1..], i - 1);
    }
  }

  /** Entry by entry, the keys of the table. */
  lemma TableKeyAt()
    ensures BadgeTable[0].0 == "new" && BadgeTable[1].0 == "pending" && BadgeTable[2].0 == "in_progress"
    ensures BadgeTable[3].0 == "completed" && BadgeTable[4].0 == "in_review" && BadgeTable[5].0 == "done"
    ensures BadgeTable[6].0 == "low" && BadgeTable[7].0 == "medium" && BadgeTable[8].0 == "high"
    ensures BadgeTable[9].0 == "critical" && BadgeTable[10].0 == "user" && BadgeTable[11].0 == "admin"
    ensures BadgeTable[12].0 == "maintainer" && |BadgeTable| == 13
  {
  }

  /** The table lists the thirteen keys, each once. */
  lemma TableKeys()
    ensures DistinctKeys(BadgeTable)
    ensures forall i | 0 <= i < |BadgeTable| :: BadgeTable[i].0 in BadgeKeys()
    ensures forall k | k in BadgeKeys() :: exists i | 0 <= i < |BadgeTable| :: BadgeTable[i].0 == k
  {
    TableKeyAt();
  }

  /** The switch and the table agree on every input: each known key gets its
      listed label and every other string comes back unchanged. */
  lemma TranslateIsLookup(key: string)
    ensures TranslateBadge(key) == Lookup(BadgeTable, key)
  {
    TableKeys();
    if key in BadgeKeys() {
      var i :| 0 <= i < |BadgeTable| && BadgeTable[i].0 == key;
      KnownKey(i);
      LookupHit(BadgeTable, i);
    } else {
      UnknownKeyPassesThrough(key);
      LookupMissing(BadgeTable, key);
    }
  }

  /** Each of the thirteen keys maps to the label listed beside it. */
  lemma KnownKey(i: nat)
    requires i < |BadgeTable|
    ensures TranslateBadge(BadgeTable[i].0) == BadgeTable[i].1
  {
  }

  /** A key the switch does not know is returned unchanged. */
  lemma UnknownKeyPassesThrough(key: string)
    requires key !in BadgeKeys()
    ensures TranslateBadge(key) == key
  {
  }

  /** No two known keys share a label. */
  lemma LabelsInjective(a: string, b: string)
    requires a in BadgeKeys() && b in BadgeKeys()
    requires TranslateBadge(a) == TranslateBadge(b)
    ensures a == b
  {
  }

  /** No label is itself a key, so translating twice is translating once. */
  lemma TranslateIdempotent(key: string)
    ensures TranslateBadge(key) !in BadgeKeys() || TranslateBadge(key) == key
    ensures TranslateBadge(TranslateBadge(key)) == TranslateBadge(key)
  {
  }

  /** The known keys are exactly the status, priority and role values. */
  lemma KeysAreTheEnumerations(st: Entities.TaskStatus, p: Entities.TaskPriority)
    ensures BadgeKeys() == set k | k in Entities.TaskStatusValues + Entities.TaskPriorityValues + RoleValues
    ensures st.Value() in BadgeKeys() && p.Value() in BadgeKeys()
  {
  }
}
