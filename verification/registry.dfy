/**
 * The `consumibles` table: one row per consumable, keyed by its code
 * (`codigo_hoja`, the primary key), never deleted, only deactivated.
 */
module Registry {
  import opened Order

  /** The values the CHECK constraint on `categoria` admits. */
  const Categories: set<string> := {"carton", "plastico", "aditivo", "sal", "agua"}

  /** A row of `consumibles` without its key: `nombre_mostrado`, `categoria`, `activo`. */
  datatype Consumable = Consumable(name: string, category: string, active: bool)

  /** The table as a map from code to row: the primary key makes codes unique. */
  type Table = map<string, Consumable>

  /** Every stored category passed the CHECK constraint. */
  ghost predicate CategoriesChecked(m: Table) {
    forall c :: c in m ==> m[c].category in Categories
  }

  /**
   * INSERT ... ON CONFLICT (codigo_hoja) DO UPDATE SET nombre_mostrado, categoria:
   * a new code gets a fresh row (active by column default); an existing code keeps
   * its one row and its `activo` flag, with name and category replaced.
   */
  function Upserted(m: Table, code: string, name: string, category: string): (r: Table)
    ensures r.Keys == m.Keys + {code}
    ensures r[code].name == name && r[code].category == category
    ensures code in m ==> r[code].active == m[code].active
    ensures code !in m ==> r[code].active
    ensures forall c :: c in m && c != code ==> r[c] == m[c]
  {
    m[code := Consumable(name, category, code !in m || m[code].active)]
  }

  /** UPDATE consumibles SET activo = FALSE WHERE codigo_hoja = code: no row matches an unknown code. */
  function Deactivated(m: Table, code: string): (r: Table)
    ensures r.Keys == m.Keys
    ensures code in m ==> r[code] == m[code].(active := false)
    ensures forall c :: c in m && c != code ==> r[c] == m[c]
  {
    if code in m then m[code := m[code].(active := false)] else m
  }

  /** Codes whose row has `activo = TRUE`. */
  function ActiveCodes(m: Table): set<string> {
    set c | c in m && m[c].active
  }

  /** Deactivating twice is the same as deactivating once. */
  lemma DeactivateIdempotent(m: Table, code: string)
    ensures Deactivated(Deactivated(m, code), code) == Deactivated(m, code)
  {
  }

  /** Deactivation removes exactly that code from the active codes and keeps every row. */
  lemma DeactivateHides(m: Table, code: string)
    ensures ActiveCodes(Deactivated(m, code)) == ActiveCodes(m) - {code}
    ensures Deactivated(m, code).Keys == m.Keys
  {
  }

  /** An upsert never changes which of the other codes are active; a new code becomes active. */
  lemma UpsertActiveCodes(m: Table, code: string, name: string, category: string)
    ensures ActiveCodes(Upserted(m, code, name, category)) ==
            if code in m then ActiveCodes(m) else ActiveCodes(m) + {code}
  {
  }

  /** A listed consumable: `codigo_hoja`, `nombre_mostrado`, `categoria`. */
  datatype Listed = Listed(code: string, name: string, category: string)

  function ListedOf(m: Table, code: string): Listed
    requires code in m
  {
    Listed(code, m[code].name, m[code].category)
  }

  /** ORDER BY categoria, nombre_mostrado */
  function CategoryNameKey(x: Listed): seq<string> { [x.category, x.name] }

  /** ORDER BY nombre_mostrado */
  function NameKey(x: Listed): seq<string> { [x.name] }
}
