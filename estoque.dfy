/** The inventory service (teste.py `SistemaEstoque`): product and category
    creation, the sale transaction, the sales report and the login check,
    over the store of banco.dfy. Each state-changing method changes the
    tables exactly as the matching function of Tabelas says; the properties
    the service promises are proved about those functions. */
module Estoque {
  import opened Modelos
  import opened Tabelas
  import opened Banco

  class SistemaEstoque {
    const db: BancoDados
    var usuarioLogado: Option<Sessao>

    predicate Valid()
      reads this, db
    {
      db.Valid()
    }

    /** `SistemaEstoque()`: opens the store on `arquivo`; nobody is logged in. */
    constructor (hash: string -> string, arquivo: Arquivo)
      requires Integro(arquivo)
      ensures Valid() && fresh(db) && db.hashSenha == hash
      ensures db.Conteudo() == InserirAdmin(arquivo, hash)
      ensures usuarioLogado == None
    {
      db := new BancoDados(hash, arquivo);
      usuarioLogado := None;
    }

    /** `adicionar_produto`: the INSERT either adds one row or, on an
        IntegrityError (duplicate name, NULL in a NOT NULL column), nothing. */
    method AdicionarProduto(nome: Option<string>, quantidade: Option<int>, preco: Option<Preco>,
                            categoriaId: Option<int>, agora: Data) returns (ok: bool)
      requires Valid()
      modifies db
      ensures Valid()
      ensures var r := InserirProduto(old(db.Conteudo()), nome, quantidade, preco, categoriaId, agora);
        ok == r.ok && db.Conteudo() == r.depois
    {
      InserirProdutoIntegro(db.Conteudo(), nome, quantidade, preco, categoriaId, agora);
      if nome.None? || quantidade.None? || preco.None? {
        return false;
      }
      if nome.value in NomesProdutos(db.produtos) {
        return false;
      }
      var id := db.seqProdutos + 1;
      db.produtos := db.produtos + [Produto(id, nome.value, quantidade.value, preco.value, categoriaId, agora)];
      db.seqProdutos := id;
      ok := true;
    }

    /** `registrar_venda`: reads the product's quantity and price; with
        enough stock, decrements it and inserts the sale row, both or
        neither; otherwise changes nothing. */
    method RegistrarVenda(produtoId: int, quantidade: int, agora: Data) returns (ok: bool)
      requires Valid()
      modifies db
      ensures Valid()
      ensures var r := Vender(old(db.Conteudo()), produtoId, quantidade, agora);
        ok == r.ok && db.Conteudo() == r.depois
      ensures ok <==> exists i :: 0 <= i < |old(db.produtos)| && old(db.produtos)[i].id == produtoId
                                  && old(db.produtos)[i].quantidade >= quantidade
    {
      ghost var antes := db.Conteudo();
      VendaCondicao(antes, produtoId, quantidade, agora);
      VenderIntegro(antes, produtoId, quantidade, agora);
      var k := Indice(IdsProdutos(db.produtos), produtoId);
      if k.Some? && db.produtos[k.value].quantidade >= quantidade {
        var p := db.produtos[k.value];
        db.produtos := db.produtos[k.value := p.(quantidade := p.quantidade - quantidade)];
        db.vendas := db.vendas + [Venda(db.seqVendas + 1, produtoId, quantidade, p.preco, agora)];
        db.seqVendas := db.seqVendas + 1;
        ok := true;
      } else {
        ok := false;
      }
    }

    /** `adicionar_categoria`: the INSERT either adds one row or, on an
        IntegrityError (duplicate name, NULL name), nothing. */
    method AdicionarCategoria(nome: Option<string>) returns (ok: bool)
      requires Valid()
      modifies db
      ensures Valid()
      ensures var r := InserirCategoria(old(db.Conteudo()), nome);
        ok == r.ok && db.Conteudo() == r.depois
    {
      InserirCategoriaIntegro(db.Conteudo(), nome);
      if nome.None? || nome.value in NomesCategorias(db.categorias) {
        return false;
      }
      var id := db.seqCategorias + 1;
      db.categorias := db.categorias + [Categoria(id, nome.value)];
      db.seqCategorias := id;
      ok := true;
    }

    /** `gerar_relatorio_vendas`: a read-only join of sales with products,
        filtered by an inclusive date range. Every row is a sale in the range
        with the name of its product, and every such sale is there. */
    function GerarRelatorioVendas(inicio: Data, fim: Data): (r: seq<LinhaRelatorio>)
      reads this, db
      requires Valid()
      ensures forall k :: 0 <= k < |r| ==>
        exists j :: 0 <= j < |db.vendas| && VemDe(r[k], db.vendas[j], db.produtos, inicio, fim)
      ensures forall j, m ::
        (0 <= j < |db.vendas| && 0 <= m < |db.produtos| && NoPeriodo(db.vendas[j].dataVenda, inicio, fim)
         && db.produtos[m].id == db.vendas[j].produtoId) ==> Linha(db.vendas[j], db.produtos[m]) in r
      ensures r == Nomear(Filtrar(db.vendas, db.produtos, inicio, fim), db.produtos)
    {
      RelatorioReferencia(db.vendas, db.produtos, inicio, fim);
      RelatorioSolido(db.vendas, db.produtos, inicio, fim);
      RelatorioCompleto(db.vendas, db.produtos, inicio, fim);
      Relatorio(db.vendas, db.produtos, inicio, fim)
    }

    /** `login`: compares the stored hash of that username with the hash of
        the password; only on success is `usuario_logado` set. */
    method Login(usuario: string, senha: string) returns (ok: bool)
      requires Valid()
      modifies this`usuarioLogado
      ensures ok <==> exists i :: 0 <= i < |db.usuarios| && db.usuarios[i].usuario == usuario
                                  && db.usuarios[i].senha == db.hashSenha(senha)
      ensures var s := Autenticar(db.usuarios, db.hashSenha, usuario, senha);
        ok == s.Some? && usuarioLogado == if ok then s else old(usuarioLogado)
    {
      LoginCorreto(db.usuarios, db.hashSenha, usuario, senha);
      var k := Indice(Logins(db.usuarios), usuario);
      if k.Some? && db.usuarios[k.value].senha == db.hashSenha(senha) {
        usuarioLogado := Some(Sessao(usuario, db.usuarios[k.value].papel));
        ok := true;
      } else {
        ok := false;
      }
    }
  }

  /** A product "Widget" with quantity 10 and price 5.0 in a new file; a sale
      of 3 succeeds, leaving 7 in stock and one sale row with quantity 3 and
      price 5.0; a following sale of 8 fails and changes nothing. */
  method CenarioWidget(hash: string -> string)
    returns (adicionado: bool, primeira: bool, segunda: bool, estoque: int, vendas: seq<Venda>)
    ensures adicionado && primeira && !segunda
    ensures estoque == 7 && |vendas| == 1
    ensures vendas[0].produtoId == 1 && vendas[0].quantidade == 3 && vendas[0].precoVenda == 5.0
  {
    var s := new SistemaEstoque(hash, ArquivoNovo());
    adicionado := s.AdicionarProduto(Some("Widget"), Some(10), Some(5.0), None, 0);
    assert s.db.produtos == [Produto(1, "Widget", 10, 5.0, None, 0)];
    assert IdsProdutos(s.db.produtos) == [1];
    primeira := s.RegistrarVenda(1, 3, 1);
    assert s.db.produtos == [Produto(1, "Widget", 7, 5.0, None, 0)];
    assert IdsProdutos(s.db.produtos) == [1];
    segunda := s.RegistrarVenda(1, 8, 2);
    estoque := s.db.produtos[0].quantidade;
    vendas := s.db.vendas;
  }
}
