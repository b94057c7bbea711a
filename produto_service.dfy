/** The product service: lookups, searches, expiry queries, the four
    discount entry points and the guarded writes over the product table,
    with the category service as the referential check. */
module Produtos {
  import opened Outcomes
  import opened Calendar
  import opened ProdutoTabela
  import Desconto
  import Text
  import Categorias

  const ProdutoNaoEncontrado := "Produto não encontrado!"
  const ProdutoNaoEncontradoPorCodigo := "Produto não encontrado"
  const NenhumNoIntervalo := "Nenhum produto encontrado no intervalo de validade informado"
  const NenhumNaCategoria := "Nenhum produto encontrado para essa categoria"
  const InformeNomeOuFabricante := "Informe pelo menos o nome ou o fabricante"
  const NenhumComCriterios := "Nenhum produto encontrado com os critérios informados"

  /** Default offsets, in days from today, of the expiry window. */
  const DiasMinPadrao := 30
  const DiasMaxPadrao := 60

  class ProdutoService {
    var produtos: Tabela
    var nextId: int
    const categoriaService: Categorias.CategoriaService

    predicate Valid()
      reads this
    {
      TabelaValida(produtos, nextId)
    }

    constructor (categoriaService: Categorias.CategoriaService)
      ensures Valid() && produtos == map[] && nextId == 1 && this.categoriaService == categoriaService
    {
      produtos := map[];
      nextId := 1;
      this.categoriaService := categoriaService;
    }

    /** Every stored product, in no particular order. */
    function FindAll(): (r: set<Produto>)
      reads this
      requires Valid()
      ensures forall p :: p in r <==> p.id in produtos && produtos[p.id] == p
    {
      set k | k in produtos :: produtos[k]
    }

    /** The stored product with key `id`, or NOT_FOUND. */
    function FindById(id: int): (r: Outcome<Produto>)
      reads this
      requires Valid()
      ensures r.Ok? <==> id in produtos
      ensures r.Ok? ==> r.value == produtos[id] && r.value.id == id
      ensures !r.Ok? ==> r == NotFound(ProdutoNaoEncontrado)
    {
      if id in produtos then Ok(produtos[id]) else NotFound(ProdutoNaoEncontrado)
    }

    /** The products whose name contains `nome`, ignoring case. */
    function FindAllByName(nome: string): (r: set<Produto>)
      reads this
      ensures r <= produtos.Values
      ensures forall k | k in produtos ::
                produtos[k] in r <==> Text.ContainsIgnoreCase(produtos[k].nome, nome)
    {
      set k | k in produtos && Text.ContainsIgnoreCase(produtos[k].nome, nome) :: produtos[k]
    }

    /** The products expiring between the first and the last day of the
        month of `hoje`, both included: exactly those of that month. */
    function BuscarProdutosValidadeNoMes(hoje: Date): (r: set<Produto>)
      reads this
      requires Valid() && ValidDate(hoje)
      ensures forall p :: p in r <==>
                && p.id in produtos && produtos[p.id] == p
                && p.dataValidade.year == hoje.year && p.dataValidade.month == hoje.month
    {
      var primeiroDia := Date(hoje.year, hoje.month, 1);
      var ultimoDia := DayZeroOfNextMonth(hoje.year, hoje.month);
      var sel := SelecaoPorValidade(produtos, primeiroDia, ultimoDia);
      assert forall k | k in produtos :: k in sel <==>
               produtos[k].dataValidade.year == hoje.year && produtos[k].dataValidade.month == hoje.month by {
        forall k | k in produtos ensures k in sel <==>
                 produtos[k].dataValidade.year == hoje.year && produtos[k].dataValidade.month == hoje.month {
          MonthBounds(produtos[k].dataValidade, hoje.year, hoje.month);
        }
      }
      set k | k in sel :: produtos[k]
    }

    /** Every product, ordered by expiry day, earliest first. */
    function BuscarProdutosOrdenadosPorVencimento(): (r: seq<Produto>)
      reads this
      requires Valid()
      ensures OrdenadaPorValidade(r)
      ensures multiset(r) == multiset(Linhas(produtos, nextId))
      ensures forall p :: p in r <==> p.id in produtos && produtos[p.id] == p
    {
      var linhas := Linhas(produtos, nextId);
      var r := Ordenar(linhas);
      assert forall p :: p in r <==> p in linhas by {
        forall p ensures p in r <==> p in linhas {
          assert p in r <==> p in multiset(r);
          assert p in linhas <==> p in multiset(linhas);
        }
      }
      r
    }

    /** A product with code `codigo` (the one with the least id when several
        share it), or NOT_FOUND. */
    function BuscarProdutoPorCodigo(codigo: int): (r: Outcome<Produto>)
      reads this
      requires Valid()
      ensures r.Ok? <==> exists k :: k in produtos && produtos[k].codigo == codigo
      ensures r.Ok? ==> r.value.id in produtos && produtos[r.value.id] == r.value && r.value.codigo == codigo
      ensures r.Ok? ==> forall k | k in produtos && produtos[k].codigo == codigo :: r.value.id <= k
      ensures !r.Ok? ==> r == NotFound(ProdutoNaoEncontradoPorCodigo)
    {
      var comCodigo := LinhasDe(produtos, nextId, set k | k in produtos && produtos[k].codigo == codigo);
      if comCodigo == [] then NotFound(ProdutoNaoEncontradoPorCodigo)
      else
        assert forall k | k in produtos && produtos[k].codigo == codigo :: comCodigo[0].id <= k by {
          forall k | k in produtos && produtos[k].codigo == codigo ensures comCodigo[0].id <= k {
            var j :| 0 <= j < |comCodigo| && comCodigo[j] == produtos[k];
          }
        }
        Ok(comCodigo[0])
    }

    /** Applies the price rule to the rows `sel`, one row at a time in
        increasing key order, and returns the rewritten rows. */
    method Descontar(sel: set<int>, percentual: int) returns (atualizados: seq<Produto>)
      requires Valid() && sel <= produtos.Keys
      modifies this`produtos
      ensures Valid()
      ensures produtos == ComDesconto(old(produtos), sel, percentual)
      ensures SaoAsLinhas(atualizados, produtos, sel)
    {
      ComDescontoValida(produtos, nextId, sel, percentual);
      var linhas := LinhasDe(produtos, nextId, sel);
      ghost var antes := produtos;
      ghost var feitos;
      atualizados, feitos := DescontarLinhas(linhas, sel, percentual);
      SelecaoCoberta(linhas, antes, sel, feitos);
      ComDescontoPontual(antes, produtos, sel, percentual);
      LinhasDescontadas(linhas, atualizados, antes, sel, percentual);
    }

    /** The loop of `Descontar`: the rows of `linhas`, all stored and all
        in `sel`, get the price rule one at a time; `feitos` holds the keys
        already rewritten. */
    method DescontarLinhas(linhas: seq<Produto>, ghost sel: set<int>, percentual: int)
      returns (atualizados: seq<Produto>, ghost feitos: set<int>)
      requires forall j | 0 <= j < |linhas| ::
                 linhas[j].id in sel && linhas[j].id in produtos && produtos[linhas[j].id] == linhas[j]
      modifies this`produtos
      ensures feitos <= sel
      ensures feitos == set j | 0 <= j < |linhas| :: linhas[j].id
      ensures produtos.Keys == old(produtos).Keys
      ensures forall k | k in old(produtos) && k in feitos ::
                produtos[k] == Descontada(old(produtos)[k], percentual)
      ensures forall k | k in old(produtos) && k !in feitos :: produtos[k] == old(produtos)[k]
      ensures |atualizados| == |linhas|
      ensures forall j | 0 <= j < |linhas| :: atualizados[j] == Descontada(linhas[j], percentual)
    {
      feitos := {};
      atualizados := [];
      var i := 0;
      while i < |linhas|
        invariant 0 <= i <= |linhas|
        invariant feitos <= sel
        invariant feitos == IdsAte(linhas, i)
        invariant DescontoParcial(old(produtos), produtos, feitos, percentual)
        invariant |atualizados| == i
        invariant forall j | 0 <= j < i :: atualizados[j] == Descontada(linhas[j], percentual)
      {
        var produto := linhas[i];
        var novo := Descontada(produto, percentual);
        DescontoParcialPasso(old(produtos), produtos, feitos, produto.id, percentual);
        produtos := produtos[produto.id := novo];
        atualizados := atualizados + [novo];
        feitos := feitos + {produto.id};
        i := i + 1;
      }
      IdsAteSaoIds(linhas, |linhas|);
    }

    /** The discount by expiry window: BAD_REQUEST for a percentage outside
        [0, 100] before anything else; then the rows expiring between
        `hoje + diasMin` and `hoje + diasMax`, both days included; NOT_FOUND
        when there are none; otherwise those rows, and only those, get the
        price rule. */
    method AplicarDescontoPorValidadeEntreDias(
      hoje: Date, percentual: int, diasMin: int := DiasMinPadrao, diasMax: int := DiasMaxPadrao)
      returns (r: Outcome<seq<Produto>>)
      requires Valid() && ValidDate(hoje)
      modifies this`produtos
      ensures Valid()
      ensures !Desconto.PercentualValido(percentual) ==>
                r == BadRequest(Desconto.PercentualInvalido) && produtos == old(produtos)
      ensures Desconto.PercentualValido(percentual) ==>
                var sel := SelecaoPorValidade(old(produtos), AddDays(hoje, diasMin), AddDays(hoje, diasMax));
                && (sel == {} ==> r == NotFound(NenhumNoIntervalo) && produtos == old(produtos))
                && (sel != {} ==> r.Ok? && produtos == ComDesconto(old(produtos), sel, percentual)
                                  && SaoAsLinhas(r.value, produtos, sel))
    {
      if percentual < 0 || percentual > 100 {
        return BadRequest(Desconto.PercentualInvalido);
      }
      var dataMin := AddDays(hoje, diasMin);
      var dataMax := AddDays(hoje, diasMax);
      var sel := SelecaoPorValidade(produtos, dataMin, dataMax);
      if sel == {} {
        return NotFound(NenhumNoIntervalo);
      }
      var atualizados := Descontar(sel, percentual);
      r := Ok(atualizados);
    }

    /** The discount of one product: NOT_FOUND for an unknown id, checked
        before the percentage; then BAD_REQUEST for a percentage outside
        [0, 100]; otherwise the price rule on that row alone. */
    method AplicarDescontoPorId(id: int, percentual: int) returns (r: Outcome<Produto>)
      requires Valid()
      modifies this`produtos
      ensures Valid()
      ensures id !in old(produtos) ==> r == NotFound(ProdutoNaoEncontrado) && produtos == old(produtos)
      ensures id in old(produtos) && !Desconto.PercentualValido(percentual) ==>
                r == BadRequest(Desconto.PercentualInvalido) && produtos == old(produtos)
      ensures id in old(produtos) && Desconto.PercentualValido(percentual) ==>
                && produtos == ComDesconto(old(produtos), {id}, percentual)
                && id in produtos && r == Ok(produtos[id])
    {
      var produto := FindById(id);
      if !produto.Ok? {
        return produto;
      }
      if percentual < 0 || percentual > 100 {
        return BadRequest(Desconto.PercentualInvalido);
      }
      ComDescontoValida(produtos, nextId, {id}, percentual);
      var novo := Descontada(produto.value, percentual);
      produtos := produtos[id := novo];
      r := Ok(novo);
    }

    /** The discount by category: BAD_REQUEST for a percentage outside
        [0, 100]; NOT_FOUND when no product belongs to `categoriaId`;
        otherwise the price rule on exactly the rows of that category. */
    method AplicarDescontoPorCategoria(categoriaId: int, percentual: int) returns (r: Outcome<seq<Produto>>)
      requires Valid()
      modifies this`produtos
      ensures Valid()
      ensures !Desconto.PercentualValido(percentual) ==>
                r == BadRequest(Desconto.PercentualInvalido) && produtos == old(produtos)
      ensures Desconto.PercentualValido(percentual) ==>
                var sel := SelecaoPorCategoria(old(produtos), categoriaId);
                && (sel == {} ==> r == NotFound(NenhumNaCategoria) && produtos == old(produtos))
                && (sel != {} ==> r.Ok? && produtos == ComDesconto(old(produtos), sel, percentual)
                                  && SaoAsLinhas(r.value, produtos, sel))
    {
      if percentual < 0 || percentual > 100 {
        return BadRequest(Desconto.PercentualInvalido);
      }
      var sel := SelecaoPorCategoria(produtos, categoriaId);
      if sel == {} {
        return NotFound(NenhumNaCategoria);
      }
      var atualizados := Descontar(sel, percentual);
      r := Ok(atualizados);
    }

    /** The discount by name and/or manufacturer: BAD_REQUEST for a
        percentage outside [0, 100]; BAD_REQUEST when neither filter is
        given; then the rows that contain every given filter, ignoring case;
        NOT_FOUND when there are none; otherwise the price rule on exactly
        those rows. */
    method AplicarDescontoPorNomeOuFabricante(
      nome: Option<string>, fabricante: Option<string>, percentual: int := 0)
      returns (r: Outcome<seq<Produto>>)
      requires Valid()
      modifies this`produtos
      ensures Valid()
      ensures !Desconto.PercentualValido(percentual) ==>
                r == BadRequest(Desconto.PercentualInvalido) && produtos == old(produtos)
      ensures Desconto.PercentualValido(percentual) && !Informado(nome) && !Informado(fabricante) ==>
                r == BadRequest(InformeNomeOuFabricante) && produtos == old(produtos)
      ensures Desconto.PercentualValido(percentual) && (Informado(nome) || Informado(fabricante)) ==>
                var sel := SelecaoPorNomeEFabricante(old(produtos), nome, fabricante);
                && (sel == {} ==> r == NotFound(NenhumComCriterios) && produtos == old(produtos))
                && (sel != {} ==> r.Ok? && produtos == ComDesconto(old(produtos), sel, percentual)
                                  && SaoAsLinhas(r.value, produtos, sel))
    {
      if percentual < 0 || percentual > 100 {
        return BadRequest(Desconto.PercentualInvalido);
      }
      if !Informado(nome) && !Informado(fabricante) {
        return BadRequest(InformeNomeOuFabricante);
      }
      var sel := SelecaoPorNomeEFabricante(produtos, nome, fabricante);
      if sel == {} {
        return NotFound(NenhumComCriterios);
      }
      var atualizados := Descontar(sel, percentual);
      r := Ok(atualizados);
    }

    /** Stores `produto` under a fresh id once its category exists
        (NOT_FOUND otherwise, with nothing stored). */
    method Create(produto: Produto) returns (r: Outcome<Produto>)
      requires Valid() && categoriaService.Valid() && ValidDate(produto.dataValidade)
      modifies this
      ensures Valid()
      ensures produto.categoriaId !in categoriaService.categorias ==>
                && r == NotFound(Categorias.CategoriaNaoEncontrada)
                && produtos == old(produtos) && nextId == old(nextId)
      ensures produto.categoriaId in categoriaService.categorias ==>
                && r == Ok(produto.(id := old(nextId))) && r.value.id !in old(produtos)
                && produtos == old(produtos)[r.value.id := r.value]
                && nextId == old(nextId) + 1
                && FindById(r.value.id) == r
    {
      var categoria := categoriaService.FindById(produto.categoriaId);
      if !categoria.Ok? {
        return NotFound(categoria.msg);
      }
      var salvo := produto.(id := nextId);
      produtos := produtos[nextId := salvo];
      nextId := nextId + 1;
      r := Ok(salvo);
    }

    /** Overwrites the product stored under `produto.id`: NOT_FOUND when
        that product is missing, checked first; then NOT_FOUND when its
        category is missing; nothing is saved on either failure. */
    method Update(produto: Produto) returns (r: Outcome<Produto>)
      requires Valid() && categoriaService.Valid() && ValidDate(produto.dataValidade)
      modifies this`produtos
      ensures Valid()
      ensures produto.id !in old(produtos) ==>
                r == NotFound(ProdutoNaoEncontrado) && produtos == old(produtos)
      ensures produto.id in old(produtos) && produto.categoriaId !in categoriaService.categorias ==>
                r == NotFound(Categorias.CategoriaNaoEncontrada) && produtos == old(produtos)
      ensures produto.id in old(produtos) && produto.categoriaId in categoriaService.categorias ==>
                r == Ok(produto) && produtos == old(produtos)[produto.id := produto]
    {
      var existente := FindById(produto.id);
      if !existente.Ok? {
        return existente;
      }
      var categoria := categoriaService.FindById(produto.categoriaId);
      if !categoria.Ok? {
        return NotFound(categoria.msg);
      }
      produtos := produtos[produto.id := produto];
      r := Ok(produto);
    }

    /** Removes the product stored under `id`, which must exist (NOT_FOUND
        otherwise, with nothing removed). */
    method Delete(id: int) returns (r: Outcome<()>)
      requires Valid()
      modifies this`produtos
      ensures Valid()
      ensures id !in old(produtos) ==> r == NotFound(ProdutoNaoEncontrado) && produtos == old(produtos)
      ensures id in old(produtos) ==> r == Ok(()) && produtos == old(produtos) - {id}
    {
      var existente := FindById(id);
      if !existente.Ok? {
        return NotFound(existente.msg);
      }
      produtos := produtos - {id};
      r := Ok(());
    }
  }

  /** A client scenario: one category, one product at 10.00 expiring in 45 days,
      and the 20% category discount applied twice, which gives 8.00 and
      then 6.40. */
  method CenarioDescontoComposto(hoje: Date)
    requires ValidDate(hoje)
  {
    var categorias := new Categorias.CategoriaService();
    var analgesicos := categorias.Create(Categorias.Categoria(0, "Analgésicos", "Alívio da dor"));
    assert analgesicos.id == 1;
    var service := new ProdutoService(categorias);
    var aspirina := Produto(0, 100, "Aspirina", 1000, 50, "Ácido acetilsalicílico", AddDays(hoje, 45), "Acme", 1);
    var criado := service.Create(aspirina);
    assert criado == Ok(aspirina.(id := 1));
    assert SelecaoPorCategoria(service.produtos, 1) == {1};
    var primeira := service.AplicarDescontoPorCategoria(1, 20);
    assert primeira.Ok? && service.produtos[1].preco == 800;
    assert SelecaoPorCategoria(service.produtos, 1) == {1};
    var segunda := service.AplicarDescontoPorCategoria(1, 20);
    assert segunda.Ok? && service.produtos[1].preco == 640;
  }
}
