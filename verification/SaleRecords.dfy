/** The rows a sale leaves behind (backend/app/models/sale.py). */
module SaleRecords {
  import opened Prelude

  datatype Tender = Cash | Mpesa | OnCredit

  /** One tender line; `reference` is the stripped M-Pesa code, empty when none was typed. */
  datatype Payment = Payment(tender: Tender, amount: nat, reference: string)

  datatype Item = Item(
    product: Id, quantity: nat, unitPrice: nat, unitCost: Option<nat>, lineTotal: nat, discount: nat)

  datatype Status = Completed | Voided

  datatype Sale = Sale(
    customer: Option<Id>, key: Key, digest: nat, status: Status,
    subtotal: nat, discount: nat, total: nat, soldAt: int,
    items: seq<Item>, payments: seq<Payment>)

  function TenderAmount(): Payment -> int { (p: Payment) => p.amount }

  function TenderTotal(payments: seq<Payment>): int { Sum(payments, TenderAmount()) }

  function CreditAmount(): Payment -> int { (p: Payment) => if p.tender == OnCredit then p.amount else 0 }

  /** What a sale puts on the customer's account. */
  function Charged(payments: seq<Payment>): (r: nat) {
    SumNonNegative(payments, CreditAmount());
    Sum(payments, CreditAmount())
  }

  function NetOf(): Item -> int { (i: Item) => i.lineTotal - i.discount }

  /** Σ (line_total - discount_allocated): the revenue of the sale's lines (BR-14). */
  function NetTotal(items: seq<Item>): int { Sum(items, NetOf()) }
}
