/** The records the analysis builds: line items, month buckets, products while rows are read
    and once finished, the processing statistics and the summary counters. */
module Records {
  import opened Common
  import opened Numbers
  import opened Calendar

  /** One line item (`item_detalhado`): a storage position, its quantity and its expiry. */
  datatype Item = Item(
    address: Cell,      // cod_endereco
    depot: Cell,        // deposito
    street: Cell,       // rua
    building: Cell,     // predio
    level: Cell,        // nivel
    apartment: Cell,    // apto
    status: Cell,       // status
    quantity: Float,    // quantidade
    expiry: Date,       // data_validade
    daysLeft: int,      // dias_restantes
    factor: Cell,       // fator
    unit: Cell,         // unidade
    capacity: Cell,     // capacidade
    palletTotal: Cell,  // qttotpal
    totalWeight: Cell,  // pesototal
    stock: Cell)        // est

  /** A month bucket (an entry of `vencimentos_por_mes`). The source keys it by the text
      `MM/YYYY`; two dates give the same text exactly when they share month and year
      (`Calendar.MonthYearSameMonth`), so the bucket holds the pair and the text is rendered
      from it. */
  datatype Bucket = Bucket(month: nat, year: nat, quantity: Float, daysLeft: int)

  /** `menor_dias_restantes` while rows are read: a day count, or `float('inf')` before the
      product's first item. */
  datatype Extended = Days(n: int) | Unbounded

  /** A product record while rows are read, keyed by its raw code. */
  datatype Accumulated = Accumulated(
    code: string,             // cod_prod
    name: Cell,               // nome
    supplier: Cell,           // fornecedor
    supplierCode: Cell,       // cod_fornec
    netWeight: Cell,          // peso_liqun
    buckets: seq<Bucket>,     // vencimentos_por_mes, in insertion order
    total: Float,             // quantidade_total
    minDays: Extended,        // menor_dias_restantes
    originalQuantity: Float,  // quantidade_original
    items: seq<Item>)         // itens_detalhados

  /** `estatisticas`. */
  datatype Stats = Stats(totalRows: nat, processed: nat, ignored: nat, invalidDates: nat)

  /** `criticidade`: vencido, alta, média, baixa. */
  datatype Tier = Expired | High | Medium | Low

  function TierName(t: Tier): string {
    match t
    case Expired => "vencido"
    case High => "alta"
    case Medium => "m\U{E9}dia"
    case Low => "baixa"
  }

  /** A finished product record: items and buckets sorted, the tier set, and an unbounded
      minimum replaced by 999. */
  datatype Product = Product(
    code: string,
    name: Cell,
    supplier: Cell,
    supplierCode: Cell,
    netWeight: Cell,
    buckets: seq<Bucket>,
    total: Float,
    minDays: int,
    originalQuantity: Float,
    items: seq<Item>,
    tier: Tier)

  /** `resumo`. */
  datatype Summary = Summary(
    totalProducts: nat,  // total_produtos
    totalItems: Float,   // total_itens
    within30: nat,       // produtos_vencendo_30_dias
    within60: nat,       // produtos_vencendo_60_dias
    expired: nat)        // produtos_vencidos
}
