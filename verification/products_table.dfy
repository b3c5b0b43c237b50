/** The catalog table of the manager dashboard: a search box filtering the
    products, ten rows per page with Previous/Next buttons, and a stock
    badge per row. */
module ProductsTable {
  import opened Common
  import opened Text

  /** A catalog product as listed; a missing category is the empty string. */
  datatype Product = Product(barcode: string, name: string, category: string, stock: int)

  const ItemsPerPage: nat := 10

  /** A product is listed when its name or category contains the search
      ignoring case, or its barcode contains the search as typed. */
  predicate Matches(p: Product, search: string)
  {
    Includes(ToLower(p.name), ToLower(search)) ||
    Includes(p.barcode, search) ||
    (p.category != "" && Includes(ToLower(p.category), ToLower(search)))
  }

  /** `filteredProducts`. */
  function Filter(ps: seq<Product>, search: string): (r: seq<Product>)
    ensures |r| <= |ps|
    ensures forall p :: p in r <==> p in ps && Matches(p, search)
  {
    if |ps| == 0 then []
    else
      var rest := Filter(ps[1..], search);
      assert forall p :: p in ps <==> p == ps[0] || p in ps[1..];
      if Matches(ps[0], search) then [ps[0]] + rest else rest
  }

  /** Filtering keeps the catalog order: filtering a concatenation filters
      each part in place. */
  lemma {:induction false} FilterAppend(a: seq<Product>, b: seq<Product>, search: string)
    ensures Filter(a + b, search) == Filter(a, search) + Filter(b, search)
  {
    if |a| == 0 {
      assert a + b == b;
    } else {
      assert (a + b)[1..] == a[1..] + b;
      assert (a + b)[0] == a[0];
      FilterAppend(a[1..], b, search);
    }
  }

  /** An empty search lists the whole catalog. */
  lemma {:induction false} FilterEmptySearch(ps: seq<Product>)
    ensures Filter(ps, "") == ps
  {
    if |ps| > 0 {
      IncludesEmpty(ToLower(ps[0].name));
      FilterEmptySearch(ps[1..]);
    }
  }

  /** `Math.ceil(n / itemsPerPage)`. */
  function TotalPages(n: nat): (t: nat)
    ensures t == 0 <==> n == 0
    ensures (t - 1) * ItemsPerPage < n <= t * ItemsPerPage || n == 0
  {
    (n + ItemsPerPage - 1) / ItemsPerPage
  }

  /** `filtered.slice((page − 1) · 10, (page − 1) · 10 + 10)`; a page past
      the end is empty. */
  function PageOf(fs: seq<Product>, page: nat): (r: seq<Product>)
    requires page >= 1
    ensures |r| <= ItemsPerPage
    ensures |r| > 0 ==> (page - 1) * ItemsPerPage + |r| <= |fs|
    ensures forall k :: 0 <= k < |r| ==> r[k] == fs[(page - 1) * ItemsPerPage + k]
    ensures page <= TotalPages(|fs|) ==> |r| > 0
    ensures page > TotalPages(|fs|) ==> r == []
  {
    var start := (page - 1) * ItemsPerPage;
    var lo := Min(start, |fs|);
    var hi := Min(start + ItemsPerPage, |fs|);
    fs[lo..hi]
  }

  /** Pages 1 to k laid end to end. */
  function FirstPages(fs: seq<Product>, k: nat): seq<Product>
  {
    if k == 0 then [] else FirstPages(fs, k - 1) + PageOf(fs, k)
  }

  lemma {:induction false} FirstPagesPrefix(fs: seq<Product>, k: nat)
    requires k <= TotalPages(|fs|)
    ensures FirstPages(fs, k) == fs[..Min(k * ItemsPerPage, |fs|)]
  {
    if k > 0 {
      FirstPagesPrefix(fs, k - 1);
      assert (k - 1) * ItemsPerPage <= |fs|;
      var lo := (k - 1) * ItemsPerPage;
      assert fs[..Min(k * ItemsPerPage, |fs|)] == fs[..lo] + fs[lo..Min(k * ItemsPerPage, |fs|)];
    }
  }

  /** The pages partition the filtered list: read in order they give it back
      whole, each product once. */
  lemma PagesPartition(fs: seq<Product>)
    ensures FirstPages(fs, TotalPages(|fs|)) == fs
  {
    FirstPagesPrefix(fs, TotalPages(|fs|));
  }

  /** Each filtered product appears on page `i / 10 + 1` at row `i % 10`. */
  lemma PageOfIndex(fs: seq<Product>, i: nat)
    requires i < |fs|
    ensures i % ItemsPerPage < |PageOf(fs, i / ItemsPerPage + 1)|
    ensures PageOf(fs, i / ItemsPerPage + 1)[i % ItemsPerPage] == fs[i]
  {
  }

  /** The table's view state. */
  datatype View = View(search: string, page: nat)

  /** Typing in the search box: the new search, back on page 1. */
  function OnSearch(v: View, search: string): (r: View)
    ensures r.search == search && r.page == 1
  {
    View(search, 1)
  }

  /** The Previous button: one page back, never below page 1. */
  function Previous(v: View): (r: View)
    ensures r.search == v.search
    ensures r.page == if v.page > 1 then v.page - 1 else 1
  {
    v.(page := Max(1, v.page - 1))
  }

  /** The Next button: one page on, never beyond the last page. */
  function Next(v: View, totalPages: nat): (r: View)
    ensures r.search == v.search
    ensures r.page == if v.page < totalPages then v.page + 1 else totalPages
  {
    v.(page := Min(totalPages, v.page + 1))
  }

  /** From a page within [1, totalPages] both buttons stay within it, and a
      button leaves the page unchanged exactly at its own end of the range. */
  lemma ButtonsStayInRange(v: View, totalPages: nat)
    requires 1 <= v.page <= totalPages
    ensures 1 <= Previous(v).page <= totalPages
    ensures 1 <= Next(v, totalPages).page <= totalPages
    ensures Previous(v).page <= v.page <= Next(v, totalPages).page
    ensures Previous(v).page == v.page <==> v.page == 1
    ensures Next(v, totalPages).page == v.page <==> v.page == totalPages
  {
  }

  /** The rows on screen. */
  function Visible(ps: seq<Product>, v: View): seq<Product>
    requires v.page >= 1
  {
    PageOf(Filter(ps, v.search), v.page)
  }

  /** After a new search the table shows the first ten matches. */
  lemma SearchShowsFirstPage(ps: seq<Product>, v: View, search: string)
    ensures var fs := Filter(ps, search);
            Visible(ps, OnSearch(v, search)) == fs[..Min(ItemsPerPage, |fs|)]
  {
  }

  datatype StockLevel = OutOfStock | LowStock | InStock

  /** `getStockStyle(stock)`. */
  function StockStyle(stock: int): (s: StockLevel)
    ensures s == OutOfStock <==> stock <= 0
    ensures s == LowStock <==> 1 <= stock <= 10
    ensures s == InStock <==> stock > 10
  {
    if stock <= 0 then OutOfStock else if stock <= 10 then LowStock else InStock
  }
}
