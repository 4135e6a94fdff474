/**
 * The "young potential" scraper: the search crawl over transfer-listed players
 * younger than 20 whose progression is above "Good".  Its negotiation page
 * reader is `NegotiationPage.GetEstimatedValue`.
 */
module YoungPotentialScraper {
  import opened SeqUtil
  import opened ListingCrawl

  /** Age below 20 (`idd_op=%3C&idd=20`) and progression above 6 (`prog_op=%3E&prog=6`), results from page 1. */
  const YoungPotentialSearch: string :=
    "https://www.pmanager.org/procurar.asp?action=proc_jog&nome=&pos=0&nacional=-1&lado=-1"
    + "&idd_op=%3C&idd=20&temp_op=%3C&temp=Any&expe_op=%3E%3D&expe=Any&con_op=%3C&con=Any"
    + "&pro_op=%3E&pro=Any&vel_op=%3E&vel=Any&forma_op=%3E&forma=Any&cab_op=%3E&cab=Any"
    + "&ord_op=%3C%3D&ord=Any&cul_op=%3E&cul=Any&pre_op=%3C%3D&pre=Any&forca_op=%3E&forca=Any"
    + "&lesionado=Any&prog_op=%3E&prog=6&tack_op=%3E&tack=Any&internacional=Any&passe_op=%3E&passe=Any"
    + "&pais=-1&rem_op=%3E&rem=Any&tec_op=%3E&tec=Any&jmaos_op=%3E&jmaos=Any&saidas_op=%3E&saidas=Any"
    + "&reflexos_op=%3E&reflexos=Any&agilidade_op=%3E&agilidade=Any&B1=Pesquisar&field=&pid=1"
    + "&sort=0&pv=1&qual_op=%3E&qual=Any&talento=Any"

  const MaxSearchPages: nat := 100

  /**
   * `search_transfer_list`: at most 100 pages from `YoungPotentialSearch`; every
   * page's ids join the accumulator as found, and the whole list is
   * deduplicated at the end.
   */
  method SearchTransferList(fetch: Fetch) returns (ids: seq<string>, pages: seq<string>)
    ensures pages == Visit(fetch, YoungPotentialSearch, 1, MaxSearchPages) && |pages| <= MaxSearchPages
    ensures NoDups(ids) && ElemSet(ids) == IdsOf(fetch, pages)
  {
    ids, pages := Crawl(fetch, YoungPotentialSearch, MaxSearchPages, false);
  }
}
