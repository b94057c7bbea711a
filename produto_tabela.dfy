/** The product table as a value: the product record, the row selections the
    discount entry points use, the price rewrite they apply, the ordering by
    expiry and the cascade a category delete triggers in the store. */
module ProdutoTabela {
  import opened Outcomes
  import opened Calendar
  import Desconto
  import Text
  import Chaves

  /** A product row. `preco` is held in cents; `dataValidade` is a calendar
      day; `categoriaId` is the key of the owning category. */
  datatype Produto = Produto(
    id: int,
    codigo: int,
    nome: string,
    preco: int,
    quantidade: int,
    descricao: string,
    dataValidade: Date,
    fabricante: string,
    categoriaId: int)

  type Tabela = map<int, Produto>

  /** Every row sits under its own id, one of the ids 1, 2, ... the store
      has handed out before `nextId`, and holds a real calendar day. */
  predicate TabelaValida(t: Tabela, nextId: int)
  {
    && 1 <= nextId
    && forall k | k in t :: t[k].id == k && 1 <= k < nextId && ValidDate(t[k].dataValidade)
  }

  /** The rows an entry point selects, as keys. */
  function SelecaoPorCategoria(t: Tabela, categoriaId: int): (sel: set<int>)
    ensures forall k :: k in sel <==> k in t && t[k].categoriaId == categoriaId
  {
    set k | k in t && t[k].categoriaId == categoriaId
  }

  /** A filter argument counts as given when it is present and not empty
      (JavaScript truthiness of a string). */
  predicate Informado(filtro: Option<string>)
    ensures Informado(filtro) <==> filtro != None && filtro != Some("")
  {
    filtro.Some? && filtro.value != ""
  }

  /** A row passes a filter that was not given, or contains the given text
      in the filtered field, ignoring case. */
  predicate PassaFiltro(campo: string, filtro: Option<string>)
    ensures !Informado(filtro) ==> PassaFiltro(campo, filtro)
    ensures Informado(filtro) ==>
              (PassaFiltro(campo, filtro) <==> Text.ContainsIgnoreCase(campo, filtro.value))
  {
    !Informado(filtro) || Text.ContainsIgnoreCase(campo, filtro.value)
  }

  function SelecaoPorNomeEFabricante(t: Tabela, nome: Option<string>, fabricante: Option<string>): (sel: set<int>)
    ensures forall k :: k in sel <==>
              k in t && PassaFiltro(t[k].nome, nome) && PassaFiltro(t[k].fabricante, fabricante)
  {
    set k | k in t && PassaFiltro(t[k].nome, nome) && PassaFiltro(t[k].fabricante, fabricante)
  }

  /** The rows whose expiry lies between `dataMin` and `dataMax`, both days included. */
  function SelecaoPorValidade(t: Tabela, dataMin: Date, dataMax: Date): (sel: set<int>)
    ensures forall k :: k in sel <==>
              k in t && NotAfter(dataMin, t[k].dataValidade) && NotAfter(t[k].dataValidade, dataMax)
  {
    set k | k in t && NotAfter(dataMin, t[k].dataValidade) && NotAfter(t[k].dataValidade, dataMax)
  }

  /** The selection by expiry window `[hoje + diasMin, hoje + diasMax]` is
      empty whenever `diasMin > diasMax`. */
  lemma JanelaInvertidaVazia(t: Tabela, hoje: Date, diasMin: int, diasMax: int)
    requires ValidDate(hoje) && diasMin > diasMax
    ensures SelecaoPorValidade(t, AddDays(hoje, diasMin), AddDays(hoje, diasMax)) == {}
  {
    var dataMin, dataMax := AddDays(hoje, diasMin), AddDays(hoje, diasMax);
    AddDaysStrictlyMonotone(hoje, diasMax, diasMin);
    forall k | k in t
      ensures !(NotAfter(dataMin, t[k].dataValidade) && NotAfter(t[k].dataValidade, dataMax))
    {
      NotAfterIsTotalOrder(dataMin, t[k].dataValidade, dataMax);
    }
  }

  /** With both offsets 0 the window selects exactly the rows expiring today. */
  lemma JanelaDeHoje(t: Tabela, hoje: Date)
    requires ValidDate(hoje)
    ensures forall k :: k in SelecaoPorValidade(t, AddDays(hoje, 0), AddDays(hoje, 0)) <==>
              k in t && t[k].dataValidade == hoje
  {
    forall k | k in t ensures
      (NotAfter(hoje, t[k].dataValidade) && NotAfter(t[k].dataValidade, hoje)) <==> t[k].dataValidade == hoje
    {
      NotAfterIsTotalOrder(hoje, t[k].dataValidade, hoje);
    }
  }

  /** The row with the price rule applied to its `preco`. */
  function Descontada(p: Produto, percentual: int): (r: Produto)
    ensures r.(preco := p.preco) == p
    ensures r.preco == Desconto.NovoPreco(p.preco, percentual)
  {
    p.(preco := Desconto.NovoPreco(p.preco, percentual))
  }

  /** The table after the price rule has been applied to the rows in `sel`:
      the same keys, only `preco` changed, and only on selected rows. */
  function ComDesconto(t: Tabela, sel: set<int>, percentual: int): (r: Tabela)
    ensures r.Keys == t.Keys
    ensures forall k | k in t :: r[k].(preco := t[k].preco) == t[k]
    ensures forall k | k in t && k !in sel :: r[k] == t[k]
    ensures forall k | k in t && k in sel :: r[k].preco == Desconto.NovoPreco(t[k].preco, percentual)
  {
    map k | k in t :: if k in sel then Descontada(t[k], percentual) else t[k]
  }

  /** A table that agrees with the discount of `t` on every key is that
      discount. */
  lemma ComDescontoPontual(t: Tabela, r: Tabela, sel: set<int>, percentual: int)
    requires r.Keys == t.Keys
    requires forall k | k in t && k in sel :: r[k] == Descontada(t[k], percentual)
    requires forall k | k in t && k !in sel :: r[k] == t[k]
    ensures r == ComDesconto(t, sel, percentual)
  {
    var c := ComDesconto(t, sel, percentual);
    assert forall k | k in r :: r[k] == c[k];
  }

  /** Applying the price rule to each row listed for `sel` gives the rows of
      the discounted table for `sel`. */
  lemma LinhasDescontadas(linhas: seq<Produto>, atualizados: seq<Produto>, t: Tabela, sel: set<int>, percentual: int)
    requires SaoAsLinhas(linhas, t, sel)
    requires |atualizados| == |linhas|
    requires forall j | 0 <= j < |linhas| :: atualizados[j] == Descontada(linhas[j], percentual)
    ensures SaoAsLinhas(atualizados, ComDesconto(t, sel, percentual), sel)
  {
    var r := ComDesconto(t, sel, percentual);
    forall k | k in sel && k in r ensures r[k] in atualizados {
      var j :| 0 <= j < |linhas| && linhas[j] == t[k];
      assert atualizados[j] == r[k];
    }
    forall p | p in atualizados ensures p.id in sel && p.id in r && r[p.id] == p {
      var j :| 0 <= j < |atualizados| && atualizados[j] == p;
      assert linhas[j] in linhas;
    }
    forall i, j | 0 <= i < j < |atualizados| ensures atualizados[i].id < atualizados[j].id {
      assert linhas[i].id < linhas[j].id;
    }
  }

  /** A discount keeps a valid table valid. */
  lemma ComDescontoValida(t: Tabela, nextId: int, sel: set<int>, percentual: int)
    requires TabelaValida(t, nextId)
    ensures TabelaValida(ComDesconto(t, sel, percentual), nextId)
  {
  }

  /** A valid discount of a table whose prices are non-negative keeps them
      non-negative and never raises any. */
  lemma ComDescontoNaoAumenta(t: Tabela, sel: set<int>, percentual: int)
    requires Desconto.PercentualValido(percentual)
    requires forall k | k in t :: t[k].preco >= 0
    ensures forall k | k in t ::
              0 <= ComDesconto(t, sel, percentual)[k].preco <= t[k].preco
  {
    forall k | k in t ensures 0 <= ComDesconto(t, sel, percentual)[k].preco <= t[k].preco {
      Desconto.NovoPrecoLimites(t[k].preco, percentual);
    }
  }

  /** A 0% discount is a rewrite that changes nothing. */
  lemma ComDescontoZero(t: Tabela, sel: set<int>)
    ensures ComDesconto(t, sel, 0) == t
  {
    forall k | k in t ensures ComDesconto(t, sel, 0)[k] == t[k] {
      Desconto.NovoPrecoZero(t[k].preco);
    }
  }

  /** `s` holds the rows of `t` under the keys `ks`, each exactly once, in
      increasing key order. */
  predicate SaoAsLinhas(s: seq<Produto>, t: Tabela, ks: set<int>)
  {
    && (forall k | k in ks && k in t :: t[k] in s)
    && (forall p | p in s :: p.id in ks && p.id in t && t[p.id] == p)
    && (forall i, j | 0 <= i < j < |s| :: s[i].id < s[j].id)
  }

  /** Reading the rows under an increasing key list gives the rows under
      exactly those keys, in that order. */
  lemma LinhasDasChaves(t: Tabela, ks: set<int>, cs: seq<int>, r: seq<Produto>)
    requires forall k | k in t :: t[k].id == k
    requires forall i, j | 0 <= i < j < |cs| :: cs[i] < cs[j]
    requires forall k :: k in cs <==> k in ks && k in t
    requires |r| == |cs| && forall i | 0 <= i < |cs| :: cs[i] in t && r[i] == t[cs[i]]
    ensures SaoAsLinhas(r, t, ks)
  {
    forall k | k in ks && k in t ensures t[k] in r {
      var i :| 0 <= i < |cs| && cs[i] == k;
      assert r[i] == t[k];
    }
    forall p | p in r ensures p.id in ks && p.id in t && t[p.id] == p {
      var i :| 0 <= i < |r| && r[i] == p;
      assert cs[i] in cs;
    }
    forall i, j | 0 <= i < j < |r| ensures r[i].id < r[j].id {
      assert r[i].id == cs[i] && r[j].id == cs[j];
    }
  }

  /** `agora` is `antes` with the price rule applied to the keys `feitos`
      and to no other key. */
  predicate DescontoParcial(antes: Tabela, agora: Tabela, feitos: set<int>, percentual: int)
  {
    && agora.Keys == antes.Keys
    && (forall k | k in antes && k in feitos :: agora[k] == Descontada(antes[k], percentual))
    && (forall k | k in antes && k !in feitos :: agora[k] == antes[k])
  }

  /** Rewriting one more stored row by the price rule extends the partial
      discount by that key. */
  lemma DescontoParcialPasso(antes: Tabela, agora: Tabela, feitos: set<int>, k: int, percentual: int)
    requires DescontoParcial(antes, agora, feitos, percentual)
    requires k in antes
    ensures DescontoParcial(antes, agora[k := Descontada(antes[k], percentual)], feitos + {k}, percentual)
  {
  }

  /** The ids of the first `n` rows of `s`, gathered one row at a time. */
  ghost function IdsAte(s: seq<Produto>, n: nat): set<int>
    requires n <= |s|
  {
    if n == 0 then {} else IdsAte(s, n - 1) + {s[n - 1].id}
  }

  /** `IdsAte` is the set of the ids of the first `n` rows. */
  lemma {:induction false} IdsAteSaoIds(s: seq<Produto>, n: nat)
    requires n <= |s|
    ensures IdsAte(s, n) == set j | 0 <= j < n :: s[j].id
  {
    if n > 0 {
      IdsAteSaoIds(s, n - 1);
      assert (set j | 0 <= j < n :: s[j].id) == (set j | 0 <= j < n - 1 :: s[j].id) + {s[n - 1].id};
    }
  }

  /** A set of keys that holds the id of every row listed for `ks`, and
      nothing outside `ks`, is `ks`. */
  lemma SelecaoCoberta(s: seq<Produto>, t: Tabela, ks: set<int>, feitos: set<int>)
    requires forall k | k in t :: t[k].id == k
    requires SaoAsLinhas(s, t, ks) && ks <= t.Keys
    requires feitos <= ks
    requires forall j | 0 <= j < |s| :: s[j].id in feitos
    ensures feitos == ks
  {
    forall k | k in ks ensures k in feitos {
      assert t[k] in s;
      var j :| 0 <= j < |s| && s[j] == t[k];
    }
  }

  /** The rows stored under the keys of `ks`, in increasing key order. */
  function LinhasDe(t: Tabela, nextId: int, ks: set<int>): (r: seq<Produto>)
    requires TabelaValida(t, nextId) && ks <= t.Keys
    ensures SaoAsLinhas(r, t, ks)
  {
    var cs := Chaves.ChavesAte(ks, nextId);
    assert forall k :: k in cs <==> k in ks && k in t;
    var r := seq(|cs|, i requires 0 <= i < |cs| => t[cs[i]]);
    LinhasDasChaves(t, ks, cs, r);
    r
  }

  /** Every row of the table, each exactly once, in increasing key order. */
  function Linhas(t: Tabela, nextId: int): (r: seq<Produto>)
    requires TabelaValida(t, nextId)
    ensures SaoAsLinhas(r, t, t.Keys)
  {
    LinhasDe(t, nextId, t.Keys)
  }

  /** Non-decreasing in the expiry day. */
  predicate OrdenadaPorValidade(s: seq<Produto>)
  {
    forall i, j | 0 <= i < j < |s| :: NotAfter(s[i].dataValidade, s[j].dataValidade)
  }

  /** A row due no later than every row of an ordered sequence can go in
      front of it. */
  lemma NaFrente(p: Produto, s: seq<Produto>)
    requires OrdenadaPorValidade(s)
    requires forall q | q in s :: NotAfter(p.dataValidade, q.dataValidade)
    ensures OrdenadaPorValidade([p] + s)
  {
    var r := [p] + s;
    forall i, j | 0 <= i < j < |r| ensures NotAfter(r[i].dataValidade, r[j].dataValidade) {
      assert r[j] == s[j - 1];
      if i > 0 {
        assert r[i] == s[i - 1];
      } else {
        assert s[j - 1] in s;
      }
    }
  }

  /** The first row of an ordered sequence is due no later than any of its
      rows. */
  lemma PrimeiroVenceAntes(s: seq<Produto>)
    requires OrdenadaPorValidade(s) && s != []
    ensures forall q | q in s :: NotAfter(s[0].dataValidade, q.dataValidade)
  {
    forall q | q in s ensures NotAfter(s[0].dataValidade, q.dataValidade) {
      var j :| 0 <= j < |s| && s[j] == q;
      if j == 0 {
        NotAfterIsTotalOrder(q.dataValidade, q.dataValidade, q.dataValidade);
      }
    }
  }

  /** `p` put in its place in a sequence already ordered by expiry. */
  function Inserir(p: Produto, s: seq<Produto>): (r: seq<Produto>)
    requires OrdenadaPorValidade(s)
    ensures OrdenadaPorValidade(r)
    ensures multiset(r) == multiset(s) + multiset{p}
    ensures forall q | q in r :: q == p || q in s
  {
    if s == [] then [p]
    else if NotAfter(p.dataValidade, s[0].dataValidade) then
      PrimeiroVenceAntes(s);
      assert forall q | q in s :: NotAfter(p.dataValidade, q.dataValidade) by {
        forall q | q in s ensures NotAfter(p.dataValidade, q.dataValidade) {
          NotAfterIsTotalOrder(p.dataValidade, s[0].dataValidade, q.dataValidade);
        }
      }
      NaFrente(p, s);
      [p] + s
    else
      assert s == [s[0]] + s[1..];
      assert OrdenadaPorValidade(s[1..]) by {
        forall i, j | 0 <= i < j < |s[1..]|
          ensures NotAfter(s[1..][i].dataValidade, s[1..][j].dataValidade)
        {
          assert s[1..][i] == s[i + 1] && s[1..][j] == s[j + 1];
        }
      }
      var resto := Inserir(p, s[1..]);
      PrimeiroVenceAntes(s);
      assert forall q | q in resto :: NotAfter(s[0].dataValidade, q.dataValidade) by {
        forall q | q in resto ensures NotAfter(s[0].dataValidade, q.dataValidade) {
          if q == p {
            NotAfterIsTotalOrder(p.dataValidade, s[0].dataValidade, p.dataValidade);
          } else {
            assert q in s;
          }
        }
      }
      NaFrente(s[0], resto);
      [s[0]] + resto
  }

  /** Insertion sort by expiry. */
  function Ordenar(s: seq<Produto>): (r: seq<Produto>)
    ensures OrdenadaPorValidade(r)
    ensures multiset(r) == multiset(s)
  {
    if s == [] then []
    else
      assert s == [s[0]] + s[1..];
      Inserir(s[0], Ordenar(s[1..]))
  }

  /** What the store's cascade leaves when the category `categoriaId` is
      deleted: the table without the rows that reference it. */
  function SemCategoria(t: Tabela, categoriaId: int): (r: Tabela)
    ensures forall k | k in r :: r[k].categoriaId != categoriaId
    ensures forall k :: k in r <==> k in t && t[k].categoriaId != categoriaId
    ensures forall k | k in r :: r[k] == t[k]
  {
    map k | k in t && t[k].categoriaId != categoriaId :: t[k]
  }

  /** The cascade keeps a valid table valid. */
  lemma SemCategoriaValida(t: Tabela, nextId: int, categoriaId: int)
    requires TabelaValida(t, nextId)
    ensures TabelaValida(SemCategoria(t, categoriaId), nextId)
  {
  }
}
