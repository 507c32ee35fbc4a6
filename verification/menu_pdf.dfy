/**
 The data side of the printable daily menu: grouping the available dishes
 by category, ordering the groups, the date texts and file name, the badge
 line, the display options, and the refusal to build an empty menu.
 */
module MenuPdf {
  import opened Wrappers
  import opened Text
  import Seqs

  const NoItemsError := "Nenhum item disponivel no cardapio para gerar o PDF."
  const FallbackCategory := "Outros"
  const UnknownOrder := 99
  /** Every order a group can receive, ascending. */
  const OrderDomain: seq<int> := [1, 2, 3, 4, 5, UnknownOrder]

  /** A menu row as the database returns it; `badges` may hold values outside the three known ones. */
  datatype MenuItemRow = MenuItemRow(
    id: string,
    name: string,
    description: Option<string>,
    price: real,
    category: string,
    imagePath: Option<string>,
    badges: Option<seq<string>>,
    available: bool)

  datatype CategoryConfig = CategoryConfig(heading: string, order: int)

  /** A printed section: the category name, its heading, its sort order and its dishes. */
  datatype Group = Group(name: string, heading: string, order: int, items: seq<MenuItemRow>)

  // ---------------------------------------------------------------- categories

  /** An empty category prints under "Outros". */
  function CategoryKey(item: MenuItemRow): (k: string)
    ensures k != []
    ensures item.category != [] ==> k == item.category
  {
    if item.category == [] then FallbackCategory else item.category
  }

  /** The category names the configuration table is keyed by. */
  predicate InConfigTable(name: string) {
    name in {"Pratos Principais", "Entradas", "Porcoes", "Sobremesas", "Bebidas"}
  }

  /** The configuration lookup as written: an exact key match, else the upper-cased name sorted last. */
  function ConfigForAsWritten(name: string): (c: CategoryConfig)
    ensures c.order in OrderDomain
    ensures c.order == UnknownOrder <==> !InConfigTable(name)
    ensures !InConfigTable(name) ==> c.heading == ToUpper(name)
  {
    if name == "Pratos Principais" then CategoryConfig("PRATOS PRINCIPAIS", 1)
    else if name == "Entradas" then CategoryConfig("ENTRADAS", 2)
    else if name == "Porcoes" then CategoryConfig("PORCOES", 3)
    else if name == "Sobremesas" then CategoryConfig("SOBREMESAS", 4)
    else if name == "Bebidas" then CategoryConfig("BEBIDAS", 5)
    else CategoryConfig(ToUpper(name), UnknownOrder)
  }

  /** The categories the admin menu editor offers, the accented "Porções" among them. */
  const EditorCategories: seq<string> := ["Pratos Principais", "Entradas", "Sobremesas", "Bebidas", "Porções"]

  /** The editor's portion category misses the unaccented key: it is upper-cased and sorted after the drinks. */
  lemma AccentedPorcoesFallsBack()
    ensures "Porções" in EditorCategories
    ensures ConfigForAsWritten("Porções") == CategoryConfig("PORÇÕES", UnknownOrder)
    ensures ConfigForAsWritten("Porções").order > ConfigForAsWritten("Bebidas").order
  {
    assert !InConfigTable("Porções");
    var u := ToUpper("Porções");
    assert u[0] == 'P' && u[1] == 'O' && u[2] == 'R' && u[3] == 'Ç' && u[4] == 'Õ' && u[5] == 'E' && u[6] == 'S';
  }

  /** A configured category, with the editor's accented spelling of the portions accepted as well. */
  predicate IsConfigured(name: string) {
    InConfigTable(name) || name == "Porções"
  }

  /** The intended lookup: the accented portion category is read as the configured one. The grouping does not use it. */
  function ConfigFor(name: string): (c: CategoryConfig)
    ensures c.order in OrderDomain
    ensures c.order == UnknownOrder <==> !IsConfigured(name)
    ensures !IsConfigured(name) ==> c == CategoryConfig(ToUpper(name), UnknownOrder)
    ensures InConfigTable(name) ==> c == ConfigForAsWritten(name)
  {
    if name == "Porções" then ConfigForAsWritten("Porcoes") else ConfigForAsWritten(name)
  }

  /** Every category the editor offers gets its own configured order, portions third. */
  lemma EditorCategoriesConfigured()
    ensures forall i :: 0 <= i < |EditorCategories| ==> ConfigFor(EditorCategories[i]).order != UnknownOrder
    ensures forall i, j :: 0 <= i < j < |EditorCategories| ==>
      ConfigFor(EditorCategories[i]).order != ConfigFor(EditorCategories[j]).order
    ensures ConfigFor("Porções") == CategoryConfig("PORCOES", 3)
  {
  }

  /** Distinct table keys get distinct orders, so only unknown categories share one. */
  lemma ConfiguredOrdersDistinct(a: string, b: string)
    requires InConfigTable(a) && InConfigTable(b) && a != b
    ensures ConfigForAsWritten(a).order != ConfigForAsWritten(b).order
  {
  }

  // ---------------------------------------------------------------- grouping

  function IsAvailable(item: MenuItemRow): bool { item.available }

  function InCategory(name: string): MenuItemRow -> bool {
    item => CategoryKey(item) == name
  }

  function CategoryKeys(items: seq<MenuItemRow>): (keys: seq<string>)
    ensures |keys| == |items| && forall i :: 0 <= i < |items| ==> keys[i] == CategoryKey(items[i])
  {
    seq(|items|, i requires 0 <= i < |items| => CategoryKey(items[i]))
  }

  function GroupOrder(g: Group): int { g.order }

  function AvailableItems(items: seq<MenuItemRow>): seq<MenuItemRow> {
    Seqs.Filter(items, IsAvailable)
  }

  /** The categories of the available dishes, each once, in order of first appearance. */
  function GroupNames(items: seq<MenuItemRow>): seq<string> {
    Seqs.Distinct(CategoryKeys(AvailableItems(items)))
  }

  /** A category's group, headed and ordered by the table lookup as written. */
  function MakeGroup(available: seq<MenuItemRow>, name: string): (g: Group)
    ensures g.name == name && g.order in OrderDomain
    ensures g.order == UnknownOrder <==> !InConfigTable(name)
    ensures !InConfigTable(name) ==> g.heading == ToUpper(name)
    ensures forall x :: x in g.items <==> x in available && CategoryKey(x) == name
  {
    var config := ConfigForAsWritten(name);
    Group(name, config.heading, config.order, Seqs.Filter(available, InCategory(name)))
  }

  /** The groups before sorting: one per category of an available dish, in order of first appearance. */
  function UnsortedGroups(items: seq<MenuItemRow>): (groups: seq<Group>)
    ensures |groups| == |GroupNames(items)|
    ensures forall k :: 0 <= k < |groups| ==> groups[k] == MakeGroup(AvailableItems(items), GroupNames(items)[k])
  {
    var names := GroupNames(items);
    seq(|names|, k requires 0 <= k < |names| => MakeGroup(AvailableItems(items), names[k]))
  }

  /** `agruparPorCategoria` */
  function GroupByCategory(items: seq<MenuItemRow>): (groups: seq<Group>)
    ensures forall i, j :: 0 <= i < j < |groups| ==> groups[i].order <= groups[j].order
  {
    Seqs.BucketSort(UnsortedGroups(items), GroupOrder, OrderDomain)
  }

  lemma OrderDomainIncreasing()
    ensures Seqs.StrictlyIncreasing(OrderDomain)
  {
  }

  /** Sorting neither loses nor invents a group. */
  lemma GroupByCategoryPermutes(items: seq<MenuItemRow>)
    ensures multiset(GroupByCategory(items)) == multiset(UnsortedGroups(items))
  {
    var unsorted := UnsortedGroups(items);
    forall i | 0 <= i < |unsorted| ensures unsorted[i].order in OrderDomain {
      assert unsorted[i] == MakeGroup(AvailableItems(items), GroupNames(items)[i]);
    }
    OrderDomainIncreasing();
    Seqs.BucketSortPermutesAll(unsorted, GroupOrder, OrderDomain);
  }

  /** Groups sharing an order keep their first-appearance order: the sort is stable. */
  lemma GroupSortStable(items: seq<MenuItemRow>, order: int)
    requires order in OrderDomain
    ensures Seqs.Filter(GroupByCategory(items), Seqs.KeyIs(GroupOrder, order))
         == Seqs.Filter(UnsortedGroups(items), Seqs.KeyIs(GroupOrder, order))
  {
    OrderDomainIncreasing();
    var unsorted := UnsortedGroups(items);
    assert GroupByCategory(items) == Seqs.BucketSort(unsorted, GroupOrder, OrderDomain);
    Seqs.BucketSortPerKey(unsorted, GroupOrder, OrderDomain, order);
  }

  lemma MadeGroupNonEmpty(available: seq<MenuItemRow>, name: string)
    requires name in CategoryKeys(available)
    ensures MakeGroup(available, name).items != []
  {
    var i :| 0 <= i < |available| && CategoryKeys(available)[i] == name;
    assert InCategory(name)(available[i]);
  }

  /** Every group is non-empty, and its dishes are exactly the available ones of its category, in menu order. */
  lemma GroupContents(items: seq<MenuItemRow>, g: Group)
    requires g in GroupByCategory(items)
    ensures g.items == Seqs.Filter(Seqs.Filter(items, IsAvailable), InCategory(g.name))
    ensures g.items != []
    ensures g.heading == ConfigForAsWritten(g.name).heading && g.order == ConfigForAsWritten(g.name).order
  {
    var unsorted := UnsortedGroups(items);
    GroupByCategoryPermutes(items);
    assert g in multiset(GroupByCategory(items));
    assert g in unsorted;
    var k :| 0 <= k < |unsorted| && unsorted[k] == g;
    var name := GroupNames(items)[k];
    assert name in GroupNames(items);
    MadeGroupNonEmpty(AvailableItems(items), name);
  }

  /** As written, a group of the editor's "Porções" is headed "PORÇÕES" and printed after the drinks. */
  lemma PorcoesPrintedAfterDrinks(items: seq<MenuItemRow>, i: int, j: int)
    requires 0 <= i < |GroupByCategory(items)| && 0 <= j < |GroupByCategory(items)|
    requires GroupByCategory(items)[i].name == "Porções" && GroupByCategory(items)[j].name == "Bebidas"
    ensures j < i
    ensures GroupByCategory(items)[i].heading == "PORÇÕES" && GroupByCategory(items)[i].order == UnknownOrder
  {
    var groups := GroupByCategory(items);
    GroupContents(items, groups[i]);
    GroupContents(items, groups[j]);
    AccentedPorcoesFallsBack();
  }

  /** No two groups share a category name. */
  lemma GroupNamesDistinct(items: seq<MenuItemRow>)
    ensures forall i, j :: 0 <= i < j < |UnsortedGroups(items)| ==> UnsortedGroups(items)[i].name != UnsortedGroups(items)[j].name
  {
    var names := GroupNames(items);
    assert Seqs.NoDuplicates(names);
  }

  /** Every available dish is in the group of its category; an unavailable one is in none. */
  lemma EveryAvailableItemPlaced(items: seq<MenuItemRow>, item: MenuItemRow)
    requires item in items
    ensures item.available ==> exists g :: g in GroupByCategory(items) && g.name == CategoryKey(item) && item in g.items
    ensures forall g :: g in GroupByCategory(items) && item in g.items ==> item.available && g.name == CategoryKey(item)
  {
    var groups := GroupByCategory(items);
    var unsorted := UnsortedGroups(items);
    var available := AvailableItems(items);
    var names := GroupNames(items);
    GroupByCategoryPermutes(items);
    if item.available {
      assert item in available;
      var i :| 0 <= i < |available| && available[i] == item;
      assert CategoryKey(item) in names;
      var k :| 0 <= k < |names| && names[k] == CategoryKey(item);
      var g := unsorted[k];
      assert item in g.items;
      assert g in multiset(unsorted);
      assert g in groups;
    }
    forall g | g in groups && item in g.items ensures item.available && g.name == CategoryKey(item) {
      assert g in multiset(groups);
      assert g in unsorted;
      var k :| 0 <= k < |unsorted| && unsorted[k] == g;
      assert InCategory(g.name)(item);
      assert item in available;
    }
  }

  // ---------------------------------------------------------------- the document

  /** Absent options default to true. */
  datatype PdfOptions = PdfOptions(includePrices: Option<bool>, includeDescriptions: Option<bool>)

  /** What one dish contributes to the page; the price text itself is left to the renderer. */
  datatype ItemBlock = ItemBlock(name: string, showsPrice: bool, description: Option<string>, badgeLine: Option<string>)

  datatype DocumentPlan = DocumentPlan(groups: seq<Group>, includePrices: bool, includeDescriptions: bool)

  /** The Portuguese label of a known badge key; an unknown key is shown as it is. */
  function BadgeLabel(badge: string): (text: string)
    ensures badge == "bestseller" ==> text == "Mais Pedido"
    ensures badge == "new" ==> text == "Novidade"
    ensures badge == "spicy" ==> text == "Picante"
    ensures badge !in {"bestseller", "new", "spicy"} ==> text == badge
  {
    if badge == "bestseller" then "Mais Pedido"
    else if badge == "new" then "Novidade"
    else if badge == "spicy" then "Picante"
    else badge
  }

  /** The badge labels joined by "  |  ", shown only when there is at least one badge. */
  function BadgeLine(badges: Option<seq<string>>): (line: Option<string>)
    ensures line.None? <==> badges.None? || badges.value == []
    ensures badges.Some? && |badges.value| == 1 ==> line == Some(BadgeLabel(badges.value[0]))
  {
    var bs := badges.GetOr([]);
    if |bs| > 0 then Some(Join(seq(|bs|, i requires 0 <= i < |bs| => BadgeLabel(bs[i])), "  |  ")) else None
  }

  /** A badge in front of others is its label, the separator `"  |  "`, then the line of the others. */
  lemma BadgeLineJoins(b: string, bs: seq<string>)
    requires bs != []
    ensures BadgeLine(Some([b] + bs)) == Some(BadgeLabel(b) + "  |  " + BadgeLine(Some(bs)).value)
  {
    var all := [b] + bs;
    var labels := seq(|all|, i requires 0 <= i < |all| => BadgeLabel(all[i]));
    var rest := seq(|bs|, i requires 0 <= i < |bs| => BadgeLabel(bs[i]));
    assert labels[0] == BadgeLabel(b) && labels[1..] == rest;
  }

  /** Two known badges: "Mais Pedido  |  Picante". */
  lemma TwoBadgeLine()
    ensures BadgeLine(Some(["bestseller", "spicy"])) == Some("Mais Pedido  |  Picante")
  {
    BadgeLineJoins("bestseller", ["spicy"]);
    assert ["bestseller"] + ["spicy"] == ["bestseller", "spicy"];
    assert BadgeLine(Some(["spicy"])) == Some("Picante");
    assert "Mais Pedido" + "  |  " + "Picante" == "Mais Pedido  |  Picante";
  }

  function ItemBlockFor(item: MenuItemRow, plan: DocumentPlan): (b: ItemBlock)
    ensures b.name == item.name && b.showsPrice == plan.includePrices
    ensures b.description.Some? <==> plan.includeDescriptions && item.description.Some? && item.description.value != []
    ensures b.badgeLine == BadgeLine(item.badges)
  {
    ItemBlock(
      item.name,
      plan.includePrices,
      if plan.includeDescriptions && item.description.Some? && item.description.value != [] then item.description else None,
      BadgeLine(item.badges))
  }

  /** `prepareDocument` up to image loading: fails when no dish is available. */
  function PrepareDocument(items: seq<MenuItemRow>, options: PdfOptions): (r: Result<DocumentPlan, string>)
    ensures r.Failure? <==> forall i :: 0 <= i < |items| ==> !items[i].available
    ensures r.Failure? ==> r.error == NoItemsError
    ensures r.Success? ==>
      && r.value.groups == GroupByCategory(items)
      && r.value.includePrices == options.includePrices.GetOr(true)
      && r.value.includeDescriptions == options.includeDescriptions.GetOr(true)
  {
    var groups := GroupByCategory(items);
    NoGroupsIffNothingAvailable(items);
    if |groups| == 0 then Failure(NoItemsError)
    else Success(DocumentPlan(groups, options.includePrices.GetOr(true), options.includeDescriptions.GetOr(true)))
  }

  lemma NoGroupsIffNothingAvailable(items: seq<MenuItemRow>)
    ensures GroupByCategory(items) == [] <==> forall i :: 0 <= i < |items| ==> !items[i].available
  {
    var groups := GroupByCategory(items);
    if groups == [] {
      forall i | 0 <= i < |items| ensures !items[i].available {
        if items[i].available {
          EveryAvailableItemPlaced(items, items[i]);
        }
      }
    } else {
      var g := groups[0];
      GroupContents(items, g);
      var item := g.items[0];
      assert item in Seqs.Filter(items, IsAvailable);
    }
  }

  // ---------------------------------------------------------------- dates

  const WeekDays: seq<string> := ["Domingo", "Segunda-feira", "Terca-feira", "Quarta-feira", "Quinta-feira", "Sexta-feira", "Sabado"]
  const Months: seq<string> := [
    "Janeiro", "Fevereiro", "Marco", "Abril", "Maio", "Junho",
    "Julho", "Agosto", "Setembro", "Outubro", "Novembro", "Dezembro"]

  /** The fields a `Date` reports: month counted from 0, week day from 0 (Sunday). */
  datatype LocalDate = LocalDate(year: nat, monthIndex: nat, day: nat, weekDay: nat)

  predicate ValidDate(d: LocalDate) {
    d.monthIndex < 12 && 1 <= d.day <= 31 && d.weekDay < 7
  }

  /** "<day> de <month name> de <year>", the day without padding. */
  function FullDate(d: LocalDate): string
    requires ValidDate(d)
  {
    NatToString(d.day) + " de " + Months[d.monthIndex] + " de " + NatToString(d.year)
  }

  /** The long date reads back: the digits before the first space are the day, then the month's name, then the year. */
  lemma FullDateParsesBack(d: LocalDate)
    requires ValidDate(d)
    ensures var r := FullDate(d);
      && ' ' in r
      && var i := Seqs.FirstIndex(r, ' ');
      && var name := Months[d.monthIndex];
      && i + 8 + |name| <= |r|
      && AllDigits(r[..i]) && ParseDigits(r[..i]) == d.day
      && r[i..i + 4] == " de " && r[i + 4..i + 4 + |name|] == name && r[i + 4 + |name|..i + 8 + |name|] == " de "
      && AllDigits(r[i + 8 + |name|..]) && ParseDigits(r[i + 8 + |name|..]) == d.year
  {
    ParseNatToString(d.day);
    ParseNatToString(d.year);
    JoinedDateSplits(NatToString(d.day), Months[d.monthIndex], NatToString(d.year));
  }

  lemma JoinedDateSplits(day: string, name: string, year: string)
    requires day != [] && AllDigits(day)
    ensures var r := day + " de " + name + " de " + year;
      && ' ' in r && Seqs.FirstIndex(r, ' ') == |day|
      && r[..|day|] == day && r[|day|..|day| + 4] == " de " && r[|day| + 4..|day| + 4 + |name|] == name
      && r[|day| + 4 + |name|..|day| + 8 + |name|] == " de " && r[|day| + 8 + |name|..] == year
  {
    var r := day + " de " + name + " de " + year;
    var k := |day|;
    assert r[k] == ' ';
  }

  function WeekDayName(d: LocalDate): (r: string)
    requires ValidDate(d)
    ensures r in WeekDays
    ensures d.weekDay == 0 <==> r == "Domingo"
    ensures d.weekDay == 1 <==> r == "Segunda-feira"
    ensures d.weekDay == 2 <==> r == "Terca-feira"
    ensures d.weekDay == 3 <==> r == "Quarta-feira"
    ensures d.weekDay == 4 <==> r == "Quinta-feira"
    ensures d.weekDay == 5 <==> r == "Sexta-feira"
    ensures d.weekDay == 6 <==> r == "Sabado"
  {
    WeekDays[d.weekDay]
  }

  /** Different days of the week get different names. */
  lemma WeekDayNamesDistinct(d1: LocalDate, d2: LocalDate)
    requires ValidDate(d1) && ValidDate(d2)
    ensures WeekDayName(d1) == WeekDayName(d2) <==> d1.weekDay == d2.weekDay
  {
  }

  /** `Y-MM-DD` with the month counted from 1. */
  function FileDate(d: LocalDate): (r: string)
    requires ValidDate(d)
    ensures |r| >= 7 && r[|r| - 3] == '-' && r[|r| - 6] == '-'
  {
    NatToString(d.year) + "-" + Pad2(d.monthIndex + 1) + "-" + Pad2(d.day)
  }

  /** The file date reads back as the year, the 1-based month and the day. */
  lemma FileDateParsesBack(d: LocalDate)
    requires ValidDate(d)
    ensures var r := FileDate(d);
      && AllDigits(r[..|r| - 6]) && ParseDigits(r[..|r| - 6]) == d.year
      && AllDigits(r[|r| - 5..|r| - 3]) && ParseDigits(r[|r| - 5..|r| - 3]) == d.monthIndex + 1
      && AllDigits(r[|r| - 2..]) && ParseDigits(r[|r| - 2..]) == d.day
  {
    var y, m, dd := NatToString(d.year), Pad2(d.monthIndex + 1), Pad2(d.day);
    var r := FileDate(d);
    assert r == y + "-" + m + "-" + dd;
    assert r[..|r| - 6] == y;
    assert r[|r| - 5..|r| - 3] == m;
    assert r[|r| - 2..] == dd;
    ParseNatToString(d.year);
    ParsePad2(d.monthIndex + 1);
    ParsePad2(d.day);
  }

  function PdfFileName(d: LocalDate): (r: string)
    requires ValidDate(d)
    ensures StartsWith(r, "cardapio-flor-do-maracuja-")
    ensures r[|r| - 4..] == ".pdf"
    ensures |r| >= 30 && r[26..|r| - 4] == FileDate(d)
  {
    var r := "cardapio-flor-do-maracuja-" + FileDate(d) + ".pdf";
    assert r[..26] == "cardapio-flor-do-maracuja-";
    r
  }
}
