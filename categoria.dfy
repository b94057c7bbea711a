/** The category service: a table of categories keyed by the id the store
    assigns, with lookups, case-insensitive searches and guarded writes. */
module Categorias {
  import opened Outcomes
  import Text

  datatype Categoria = Categoria(id: int, nome: string, descricao: string)

  const CategoriaNaoEncontrada := "Categoria não encontrada!"
  const DescricaoVazia := "Descrição não pode ser vazia!"

  /** Every stored category sits under its own id, one of the ids 1, 2, ...
      the store has handed out before `nextId`. */
  predicate TabelaValida(t: map<int, Categoria>, nextId: int)
  {
    && 1 <= nextId
    && forall k | k in t :: t[k].id == k && 1 <= k < nextId
  }

  class CategoriaService {
    var categorias: map<int, Categoria>
    var nextId: int

    predicate Valid()
      reads this
    {
      TabelaValida(categorias, nextId)
    }

    constructor ()
      ensures Valid() && categorias == map[] && nextId == 1
    {
      categorias := map[];
      nextId := 1;
    }

    /** Every stored category, in no particular order. */
    function FindAll(): (r: set<Categoria>)
      reads this
      requires Valid()
      ensures forall c :: c in r <==> c.id in categorias && categorias[c.id] == c
    {
      set k | k in categorias :: categorias[k]
    }

    /** The stored category with key `id`, or NOT_FOUND. */
    function FindById(id: int): (r: Outcome<Categoria>)
      reads this
      requires Valid()
      ensures r.Ok? <==> id in categorias
      ensures r.Ok? ==> r.value == categorias[id] && r.value.id == id
      ensures !r.Ok? ==> r == NotFound(CategoriaNaoEncontrada)
    {
      if id in categorias then Ok(categorias[id]) else NotFound(CategoriaNaoEncontrada)
    }

    /** The categories whose description contains `descricao`, ignoring case;
        no match is an empty result, not an error. */
    function FindAllByDescricao(descricao: string): (r: set<Categoria>)
      reads this
      ensures r <= categorias.Values
      ensures forall k | k in categorias ::
                categorias[k] in r <==> Text.ContainsIgnoreCase(categorias[k].descricao, descricao)
    {
      set k | k in categorias && Text.ContainsIgnoreCase(categorias[k].descricao, descricao) :: categorias[k]
    }

    /** The categories whose name contains `nome`, ignoring case; no match is
        an empty result, not an error. */
    function FindAllByNome(nome: string): (r: set<Categoria>)
      reads this
      ensures r <= categorias.Values
      ensures forall k | k in categorias ::
                categorias[k] in r <==> Text.ContainsIgnoreCase(categorias[k].nome, nome)
    {
      set k | k in categorias && Text.ContainsIgnoreCase(categorias[k].nome, nome) :: categorias[k]
    }

    /** Looks the category up (NOT_FOUND first), rejects a description that
        is empty or all whitespace (BAD_REQUEST), and otherwise stores the
        trimmed description, leaving the name, the id and every other
        category as they were. */
    method UpdateDescricao(id: int, novaDescricao: string) returns (r: Outcome<Categoria>)
      requires Valid()
      modifies this
      ensures Valid() && nextId == old(nextId)
      ensures id !in old(categorias) ==>
                r == NotFound(CategoriaNaoEncontrada) && categorias == old(categorias)
      ensures id in old(categorias) && Text.AllWhitespace(novaDescricao) ==>
                r == BadRequest(DescricaoVazia) && categorias == old(categorias)
      ensures id in old(categorias) && !Text.AllWhitespace(novaDescricao) ==>
                && r == Ok(old(categorias)[id].(descricao := Text.Trim(novaDescricao)))
                && categorias == old(categorias)[id := r.value]
      ensures r.Ok? ==> (&& r.value.descricao != ""
                         && !Text.IsWhitespace(r.value.descricao[0])
                         && !Text.IsWhitespace(r.value.descricao[|r.value.descricao| - 1]))
    {
      var categoria := FindById(id);
      if !categoria.Ok? {
        return categoria;
      }
      var descricao := Text.Trim(novaDescricao);
      Text.TrimEmptyIffBlank(novaDescricao);
      if novaDescricao == "" || descricao == "" {
        return BadRequest(DescricaoVazia);
      }
      var salva := categoria.value.(descricao := descricao);
      categorias := categorias[id := salva];
      r := Ok(salva);
    }

    /** Stores `categoria` under a fresh id and returns the stored row. */
    method Create(categoria: Categoria) returns (r: Categoria)
      requires Valid()
      modifies this
      ensures Valid()
      ensures r == categoria.(id := old(nextId)) && r.id !in old(categorias)
      ensures categorias == old(categorias)[r.id := r]
      ensures nextId == old(nextId) + 1
      ensures FindById(r.id) == Ok(r)
    {
      r := categoria.(id := nextId);
      categorias := categorias[nextId := r];
      nextId := nextId + 1;
    }

    /** Overwrites the category stored under `categoria.id`, which must exist
        (NOT_FOUND otherwise, with nothing saved). */
    method Update(categoria: Categoria) returns (r: Outcome<Categoria>)
      requires Valid()
      modifies this
      ensures Valid() && nextId == old(nextId)
      ensures categoria.id !in old(categorias) ==>
                r == NotFound(CategoriaNaoEncontrada) && categorias == old(categorias)
      ensures categoria.id in old(categorias) ==>
                r == Ok(categoria) && categorias == old(categorias)[categoria.id := categoria]
    {
      var existente := FindById(categoria.id);
      if !existente.Ok? {
        return existente;
      }
      categorias := categorias[categoria.id := categoria];
      r := Ok(categoria);
    }

    /** Removes the category stored under `id`, which must exist (NOT_FOUND
        otherwise, with nothing removed). */
    method Delete(id: int) returns (r: Outcome<()>)
      requires Valid()
      modifies this
      ensures Valid() && nextId == old(nextId)
      ensures id !in old(categorias) ==>
                r == NotFound(CategoriaNaoEncontrada) && categorias == old(categorias)
      ensures id in old(categorias) ==> r == Ok(()) && categorias == old(categorias) - {id}
    {
      var existente := FindById(id);
      if !existente.Ok? {
        return NotFound(existente.msg);
      }
      categorias := categorias - {id};
      r := Ok(());
    }
  }

  /** The name search does not depend on the case of the searched text. */
  lemma FindAllByNomeIgnoraCaixa(service: CategoriaService, nome: string)
    ensures service.FindAllByNome(Text.FoldString(nome)) == service.FindAllByNome(nome)
  {
    forall k | k in service.categorias
      ensures Text.ContainsIgnoreCase(service.categorias[k].nome, Text.FoldString(nome))
              == Text.ContainsIgnoreCase(service.categorias[k].nome, nome)
    {
      Text.CaseOfArgumentsIrrelevant(service.categorias[k].nome, nome);
    }
  }

  /** The description search does not depend on the case of the searched text. */
  lemma FindAllByDescricaoIgnoraCaixa(service: CategoriaService, descricao: string)
    ensures service.FindAllByDescricao(Text.FoldString(descricao)) == service.FindAllByDescricao(descricao)
  {
    forall k | k in service.categorias
      ensures Text.ContainsIgnoreCase(service.categorias[k].descricao, Text.FoldString(descricao))
              == Text.ContainsIgnoreCase(service.categorias[k].descricao, descricao)
    {
      Text.CaseOfArgumentsIrrelevant(service.categorias[k].descricao, descricao);
    }
  }

  /** Searching for the empty text finds every category. */
  lemma FindAllByNomeVazio(service: CategoriaService)
    requires service.Valid()
    ensures service.FindAllByNome("") == service.FindAll()
  {
    forall k | k in service.categorias ensures Text.ContainsIgnoreCase(service.categorias[k].nome, "") {
      Text.EmptyIsSubstring(Text.FoldString(service.categorias[k].nome));
    }
  }

  /** Calling UpdateDescricao a second time with the same arguments gives the
      same result and leaves the table as the first call left it. */
  method UpdateDescricaoTwice(service: CategoriaService, id: int, novaDescricao: string)
    returns (primeira: Outcome<Categoria>, segunda: Outcome<Categoria>)
    requires service.Valid()
    modifies service
    ensures service.Valid()
    ensures segunda == primeira
    ensures !primeira.Ok? ==> service.categorias == old(service.categorias)
    ensures primeira.Ok? ==> service.categorias == old(service.categorias)[id := primeira.value]
  {
    primeira := service.UpdateDescricao(id, novaDescricao);
    ghost var depois := service.categorias;
    segunda := service.UpdateDescricao(id, novaDescricao);
    if primeira.Ok? {
      assert depois[id].(descricao := Text.Trim(novaDescricao)) == depois[id];
    }
  }
}
