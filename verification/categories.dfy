/** The fixed table of activity categories (`CATEGORY_COLORS` in script.js). */
module Categories {
  import opened Wrappers

  /** The seven category keys; any other key has no entry in the table. */
  datatype Category = Work | Health | Learning | Leisure | Family | Outdoor | Personal

  /** The key under which the category is stored and used as a CSS class suffix. */
  function Key(c: Category): string {
    match c
    case Work => "work"
    case Health => "health"
    case Learning => "learning"
    case Leisure => "leisure"
    case Family => "family"
    case Outdoor => "outdoor"
    case Personal => "personal"
  }

  /** The `name` column of the table. */
  function DisplayName(c: Category): string {
    match c
    case Work => "Work"
    case Health => "Health & Fitness"
    case Learning => "Learning"
    case Leisure => "Leisure"
    case Family => "Family"
    case Outdoor => "Outdoor"
    case Personal => "Personal"
  }

  /** The `hex` column: the colour of the category's timeline dot. */
  function Hex(c: Category): string {
    match c
    case Work => "#3b82f6"
    case Health => "#22c55e"
    case Learning => "#a855f7"
    case Leisure => "#f59e0b"
    case Family => "#ec4899"
    case Outdoor => "#10b981"
    case Personal => "#8b5cf6"
  }

  /** The `rgb` column. */
  function Rgb(c: Category): string {
    match c
    case Work => "59, 130, 246"
    case Health => "34, 197, 94"
    case Learning => "168, 85, 247"
    case Leisure => "245, 158, 11"
    case Family => "236, 72, 153"
    case Outdoor => "16, 185, 129"
    case Personal => "139, 92, 246"
  }

  /** Looks a stored key up in the table; a key outside it has no category. */
  function ParseCategory(s: string): (r: Option<Category>)
    ensures r.Some? ==> Key(r.value) == s
    ensures r.None? ==> forall c :: Key(c) != s
  {
    if s == "work" then Some(Work)
    else if s == "health" then Some(Health)
    else if s == "learning" then Some(Learning)
    else if s == "leisure" then Some(Leisure)
    else if s == "family" then Some(Family)
    else if s == "outdoor" then Some(Outdoor)
    else if s == "personal" then Some(Personal)
    else None
  }

  /** Every category's key reads back as that category. */
  lemma ParseKey(c: Category)
    ensures ParseCategory(Key(c)) == Some(c)
  {
  }

  /** Distinct categories have distinct keys, names and colours. */
  lemma TableColumnsInjective(c: Category, d: Category)
    requires c != d
    ensures Key(c) != Key(d)
    ensures DisplayName(c) != DisplayName(d)
    ensures Hex(c) != Hex(d)
    ensures Rgb(c) != Rgb(d)
  {
  }
}
