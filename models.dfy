/**
 * The closed vocabularies and the shape of a stored transaction.
 * Activity categories and transaction types are tagged variants; the
 * strings that name them in storage and in extracted records are given by
 * `Value` and read back strictly by `FromValue`, which accepts an exact
 * match and nothing else.
 */
module Models {
  import opened Wrappers
  import opened Calendar

  /** The kind of farm activity a transaction belongs to. */
  datatype ActivityCategory = Equipos | Presiembra | Siembra | Fertilizacion | Manejo | Cosecha | Venta
  {
    /** The enum's stored string. */
    function Value(): string {
      match this
      case Equipos => "compras de equipos y maquinaria"
      case Presiembra => "pre-siembra"
      case Siembra => "siembra"
      case Fertilizacion => "fertilización"
      case Manejo => "manejo del cultivo"
      case Cosecha => "cosecha"
      case Venta => "venta"
    }
  }

  const AllCategories: seq<ActivityCategory> :=
    [Equipos, Presiembra, Siembra, Fertilizacion, Manejo, Cosecha, Venta]

  /** `ActivityCategory(s)`: the member whose value is exactly `s`, if any. */
  function CategoryFromValue(s: string): (r: Option<ActivityCategory>)
    ensures r.Some? ==> r.value.Value() == s
    ensures r.None? ==> forall c: ActivityCategory :: c.Value() != s
  {
    if s == Equipos.Value() then Some(Equipos)
    else if s == Presiembra.Value() then Some(Presiembra)
    else if s == Siembra.Value() then Some(Siembra)
    else if s == Fertilizacion.Value() then Some(Fertilizacion)
    else if s == Manejo.Value() then Some(Manejo)
    else if s == Cosecha.Value() then Some(Cosecha)
    else if s == Venta.Value() then Some(Venta)
    else None
  }

  /** Seven members, each listed once, with pairwise distinct values; every value reads back as its member. */
  lemma CategoryVocabulary()
    ensures |AllCategories| == 7
    ensures forall c: ActivityCategory :: c in AllCategories
    ensures forall i, j :: 0 <= i < j < |AllCategories| ==> AllCategories[i].Value() != AllCategories[j].Value()
    ensures forall c: ActivityCategory :: CategoryFromValue(c.Value()) == Some(c)
  {
    forall c: ActivityCategory ensures c in AllCategories {
      match c
      case Equipos => assert AllCategories[0] == c;
      case Presiembra => assert AllCategories[1] == c;
      case Siembra => assert AllCategories[2] == c;
      case Fertilizacion => assert AllCategories[3] == c;
      case Manejo => assert AllCategories[4] == c;
      case Cosecha => assert AllCategories[5] == c;
      case Venta => assert AllCategories[6] == c;
    }
  }

  /** Whether a transaction brings money in or takes it out. */
  datatype TxnType = Ingreso | Gasto
  {
    function Value(): string {
      match this
      case Ingreso => "ingreso"
      case Gasto => "gasto"
    }
  }

  /** `TxnType(s)`: exactly "ingreso" or "gasto". */
  function TypeFromValue(s: string): (r: Option<TxnType>)
    ensures r.Some? <==> s == "ingreso" || s == "gasto"
    ensures r.Some? ==> r.value.Value() == s
  {
    if s == "ingreso" then Some(Ingreso)
    else if s == "gasto" then Some(Gasto)
    else None
  }

  /** A UUID, by its 128-bit value. */
  datatype Uuid = Uuid(bits: nat)

  const DefaultCurrency: string := "COP"

  /**
   * A stored transaction. `farmId`, `date`, `category`, `txnType` and
   * `currency` are mandatory; the rest may be absent. Quantity and money
   * are whole numbers (minor currency units): there is no fractional money.
   */
  datatype Transaction = Transaction(
    farmId: Uuid,
    date: Date,
    category: ActivityCategory,
    txnType: TxnType,
    description: Option<string>,
    quantity: Option<int>,
    unit: Option<string>,
    unitPrice: Option<int>,
    totalValue: Option<int>,
    currency: string,
    sourceMessageId: Option<Uuid>)
}
