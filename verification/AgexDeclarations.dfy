/** The parser reads exactly the declarations and programs of the grammar. */
module AgexDeclarations {
  import opened AgexAst
  import opened AgexStmtParser
  import opened AgexSyntax
  import opened AgexStatements
  import opened Wrappers

  // -------------------------------------------------------------- functions

  lemma FnBodyIff(ts: seq<Token>, i: nat, j: nat, body: Option<seq<Stmt>>, expr: Option<Expr>)
    ensures FnBodyAt(ts, i) == Got((body, expr), j) <==> IsFnBody(ts, i, j, body, expr)
  {
    if Tok(ts, i, FatArrow) || Tok(ts, i, Assign) {
      if IsFnBody(ts, i, j, body, expr) {
        var m: nat :| IsExpr(ts, i + 1, m, expr.value) && j == if Tok(ts, m, Semicolon) then m + 1 else m;
        ExprIff(ts, i + 1, m, expr.value);
      }
      if FnBodyAt(ts, i) == Got((body, expr), j) {
        ExprIff(ts, i + 1, ExprAt(ts, i + 1).next, expr.value);
      }
    } else if body.Some? {
      BlockIff(ts, i, j, body.value);
    }
  }

  lemma FnHeadIff(ts: seq<Token>, i: nat, n: nat, receiver: Option<string>, name: string)
    ensures FnHeadAt(ts, i) == Got((receiver, name), n + 1) <==> IsFnHead(ts, i, n, receiver) && Name(ts, n, name)
  {
  }

  lemma FnFound(ts: seq<Token>, i: nat, n: nat, m: nat, j: nat, isAsync: bool, isUnsafe: bool, f: FnDecl)
    requires (isAsync ==> Tok(ts, i, Async)) && f.isAsync == isAsync && f.isUnsafe == isUnsafe
    requires FnHeadAt(ts, if isAsync then i + 1 else i) == Got((f.receiver, f.name), n + 1)
    requires SignatureAt(ts, n + 1) == Got((f.params, f.returnType), m)
    requires FnBodyAt(ts, m) == Got((f.body, f.exprBody), j)
    ensures FnAt(ts, i, isAsync, isUnsafe) == Got(f, j)
  {
    hide FnHeadAt, SignatureAt, FnBodyAt;
  }

  lemma FnParts(ts: seq<Token>, i: nat, j: nat, isAsync: bool, isUnsafe: bool, f: FnDecl) returns (n: nat, m: nat)
    requires FnAt(ts, i, isAsync, isUnsafe) == Got(f, j)
    ensures (isAsync ==> Tok(ts, i, Async)) && f.isAsync == isAsync && f.isUnsafe == isUnsafe
    ensures FnHeadAt(ts, if isAsync then i + 1 else i) == Got((f.receiver, f.name), n + 1)
    ensures SignatureAt(ts, n + 1) == Got((f.params, f.returnType), m)
    ensures FnBodyAt(ts, m) == Got((f.body, f.exprBody), j)
  {
    hide FnHeadAt, SignatureAt, FnBodyAt;
    n := FnHeadAt(ts, if isAsync then i + 1 else i).next - 1;
    m := SignatureAt(ts, n + 1).next;
  }

  lemma FnHead(ts: seq<Token>, i: nat, j: nat, isAsync: bool, isUnsafe: bool, f: FnDecl) returns (n: nat, m: nat)
    requires IsFn(ts, i, j, isAsync, isUnsafe, f)
    ensures (isAsync ==> Tok(ts, i, Async)) && f.isAsync == isAsync && f.isUnsafe == isUnsafe
    ensures IsFnHead(ts, if isAsync then i + 1 else i, n, f.receiver) && Name(ts, n, f.name)
    ensures IsSignature(ts, n + 1, m, f.params, f.returnType) && IsFnBody(ts, m, j, f.body, f.exprBody)
  {
    n, m :|
      && IsFnHead(ts, if isAsync then i + 1 else i, n, f.receiver) && Name(ts, n, f.name)
      && IsSignature(ts, n + 1, m, f.params, f.returnType) && IsFnBody(ts, m, j, f.body, f.exprBody);
  }

  lemma FnRight(ts: seq<Token>, i: nat, j: nat, isAsync: bool, isUnsafe: bool, f: FnDecl)
    requires FnAt(ts, i, isAsync, isUnsafe) == Got(f, j)
    ensures IsFn(ts, i, j, isAsync, isUnsafe, f)
  {
    hide *;
    var n, m := FnParts(ts, i, j, isAsync, isUnsafe, f);
    FnHeadIff(ts, if isAsync then i + 1 else i, n, f.receiver, f.name);
    SignatureIff(ts, n + 1, m, f.params, f.returnType);
    FnBodyIff(ts, m, j, f.body, f.exprBody);
    FnMade(ts, i, n, m, j, isAsync, isUnsafe, f);
  }

  lemma FnMade(ts: seq<Token>, i: nat, n: nat, m: nat, j: nat, isAsync: bool, isUnsafe: bool, f: FnDecl)
    requires (isAsync ==> Tok(ts, i, Async)) && f.isAsync == isAsync && f.isUnsafe == isUnsafe
    requires IsFnHead(ts, if isAsync then i + 1 else i, n, f.receiver) && Name(ts, n, f.name)
    requires IsSignature(ts, n + 1, m, f.params, f.returnType) && IsFnBody(ts, m, j, f.body, f.exprBody)
    ensures IsFn(ts, i, j, isAsync, isUnsafe, f)
  {
  }

  lemma FnIff(ts: seq<Token>, i: nat, j: nat, isAsync: bool, isUnsafe: bool, f: FnDecl)
    ensures FnAt(ts, i, isAsync, isUnsafe) == Got(f, j) <==> IsFn(ts, i, j, isAsync, isUnsafe, f)
  {
    hide *;
    if IsFn(ts, i, j, isAsync, isUnsafe, f) {
      var n, m := FnHead(ts, i, j, isAsync, isUnsafe, f);
      FnHeadIff(ts, if isAsync then i + 1 else i, n, f.receiver, f.name);
      SignatureIff(ts, n + 1, m, f.params, f.returnType);
      FnBodyIff(ts, m, j, f.body, f.exprBody);
      FnFound(ts, i, n, m, j, isAsync, isUnsafe, f);
    }
    if FnAt(ts, i, isAsync, isUnsafe) == Got(f, j) { FnRight(ts, i, j, isAsync, isUnsafe, f); }
  }

  lemma {:induction false} MembersIff(ts: seq<Token>, i: nat, j: nat, members: seq<FnDecl>)
    ensures MembersAt(ts, i) == Got(members, j) <==> IsMembers(ts, i, j, members)
    decreases |members|
  {
    if members != [] {
      if IsMembers(ts, i, j, members) {
        var m: nat :| IsFn(ts, i, m, false, false, members[0]) && IsMembers(ts, m, j, members[1..]);
        FnIff(ts, i, m, false, false, members[0]);
        MembersIff(ts, m, j, members[1..]);
        MembersFound(ts, i, m, j, members);
      }
      if MembersAt(ts, i) == Got(members, j) {
        var m := MembersParts(ts, i, j, members);
        FnIff(ts, i, m, false, false, members[0]);
        MembersIff(ts, m, j, members[1..]);
      }
    }
  }

  lemma MembersFound(ts: seq<Token>, i: nat, m: nat, j: nat, members: seq<FnDecl>)
    requires members != [] && !Tok(ts, i, RBrace)
    requires FnAt(ts, i, false, false) == Got(members[0], m) && MembersAt(ts, m) == Got(members[1..], j)
    ensures MembersAt(ts, i) == Got(members, j)
  {
    assert [members[0]] + members[1..] == members;
  }

  lemma MembersParts(ts: seq<Token>, i: nat, j: nat, members: seq<FnDecl>) returns (m: nat)
    requires members != [] && MembersAt(ts, i) == Got(members, j)
    ensures !Tok(ts, i, RBrace)
    ensures FnAt(ts, i, false, false) == Got(members[0], m) && MembersAt(ts, m) == Got(members[1..], j)
  {
    m := FnAt(ts, i, false, false).next;
  }

  // ---------------------------------------------------------------- classes

  /** Members of a class differ only in the error for what is no function. */
  lemma {:induction false} ClassMembersAgree(ts: seq<Token>, i: nat)
    ensures ClassMembersAt(ts, i).Got? <==> MembersAt(ts, i).Got?
    ensures MembersAt(ts, i).Got? ==> ClassMembersAt(ts, i) == MembersAt(ts, i)
    decreases |ts| - i
  {
    if !Tok(ts, i, RBrace) {
      var f := FnAt(ts, i, false, false);
      if f.Got? { ClassMembersAgree(ts, f.next); }
    }
  }

  lemma {:induction false} CloseFound(ts: seq<Token>, i: nat, j: nat)
    requires i <= j < |ts| && (ts[j].Is(RParen) || ts[j].Is(Eof))
    requires forall k :: i <= k < j ==> !Tok(ts, k, RParen) && !Tok(ts, k, Eof)
    ensures CloseFrom(ts, i) == j
    decreases j - i
  {
    if i < j {
      assert !Tok(ts, i, RParen) && !Tok(ts, i, Eof);
      CloseFound(ts, i + 1, j);
    }
  }

  lemma {:induction false} CloseOpen(ts: seq<Token>, i: nat)
    requires i <= |ts|
    ensures var j := CloseFrom(ts, i);
      && (forall k :: i <= k < j ==> !Tok(ts, k, RParen) && !Tok(ts, k, Eof))
      && (j < |ts| ==> ts[j].Is(RParen) || ts[j].Is(Eof))
    decreases |ts| - i
  {
    if i < |ts| && !ts[i].Is(RParen) && !ts[i].Is(Eof) { CloseOpen(ts, i + 1); }
  }

  lemma SkipIff(ts: seq<Token>, i: nat, j: nat)
    requires i <= |ts| && ts != [] && ts[|ts| - 1].Is(Eof)
    ensures SkipParens(ts, i) == j <==> IsSkipped(ts, i, j)
  {
    if Tok(ts, i, LParen) {
      CloseOpen(ts, i + 1);
      if IsSkipped(ts, i, j) { CloseFound(ts, i + 1, if j > i + 1 && Tok(ts, j - 1, RParen) then j - 1 else j); }
    }
  }

  lemma {:induction false} BasesIff(ts: seq<Token>, i: nat, j: nat, bases: seq<string>)
    requires ts != [] && ts[|ts| - 1].Is(Eof)
    ensures BasesAt(ts, i) == Got(bases, j) <==> IsBases(ts, i, j, bases)
    decreases |bases|
  {
    if IsBases(ts, i, j, bases) {
      var m := FirstBase(ts, i, j, bases);
      SkipIff(ts, i + 1, m);
      if Tok(ts, m, Comma) { BasesIff(ts, m + 1, j, bases[1..]); }
      BasesFound(ts, i, m, j, bases);
    }
    if BasesAt(ts, i) == Got(bases, j) { BasesRight(ts, i, j, bases); }
  }

  lemma {:induction false} BasesRight(ts: seq<Token>, i: nat, j: nat, bases: seq<string>)
    requires ts != [] && ts[|ts| - 1].Is(Eof) && BasesAt(ts, i) == Got(bases, j)
    ensures IsBases(ts, i, j, bases)
    decreases |bases|, 0
  {
    var m := BasesParts(ts, i, j, bases);
    SkipIff(ts, i + 1, m);
    if Tok(ts, m, Comma) { BasesIff(ts, m + 1, j, bases[1..]); }
    BasesMade(ts, i, m, j, bases);
  }

  lemma FirstBase(ts: seq<Token>, i: nat, j: nat, bases: seq<string>) returns (m: nat)
    requires IsBases(ts, i, j, bases)
    ensures bases != [] && Name(ts, i, bases[0]) && IsSkipped(ts, i + 1, m) && IsMoreBases(ts, m, j, bases[1..])
  {
    m :| IsSkipped(ts, i + 1, m) && IsMoreBases(ts, m, j, bases[1..]);
  }

  lemma BasesMade(ts: seq<Token>, i: nat, m: nat, j: nat, bases: seq<string>)
    requires bases != [] && Name(ts, i, bases[0]) && IsSkipped(ts, i + 1, m)
    requires if Tok(ts, m, Comma) then IsBases(ts, m + 1, j, bases[1..]) else j == m && |bases| == 1
    ensures IsBases(ts, i, j, bases)
  {
    assert IsMoreBases(ts, m, j, bases[1..]);
  }

  lemma BasesFound(ts: seq<Token>, i: nat, m: nat, j: nat, bases: seq<string>)
    requires bases != [] && Name(ts, i, bases[0]) && SkipParens(ts, i + 1) == m
    requires if Tok(ts, m, Comma) then BasesAt(ts, m + 1) == Got(bases[1..], j) else j == m && |bases| == 1
    ensures BasesAt(ts, i) == Got(bases, j)
  {
    assert [bases[0]] + bases[1..] == bases;
    assert |bases| == 1 ==> [bases[0]] == bases;
    assert EatAt(ts, i, Ident) == Got(ts[i], i + 1);
  }

  lemma BasesParts(ts: seq<Token>, i: nat, j: nat, bases: seq<string>) returns (m: nat)
    requires BasesAt(ts, i) == Got(bases, j)
    ensures bases != [] && Name(ts, i, bases[0]) && SkipParens(ts, i + 1) == m
    ensures if Tok(ts, m, Comma) then BasesAt(ts, m + 1) == Got(bases[1..], j) else j == m && |bases| == 1
  {
    m := SkipParens(ts, i + 1);
    if Tok(ts, m, Comma) { assert bases[1..] == BasesAt(ts, m + 1).value; }
  }

  lemma ClassParamsIff(ts: seq<Token>, i: nat, j: nat, ps: seq<Param>)
    ensures ClassParamsAt(ts, i) == Got(ps, j) <==> IsClassParams(ts, i, j, ps)
  {
    if Tok(ts, i, LParen) && j > i + 1 { ParamsIff(ts, i + 1, j - 1, ps); }
  }

  lemma ClassBasesIff(ts: seq<Token>, i: nat, j: nat, bases: seq<string>)
    requires ts != [] && ts[|ts| - 1].Is(Eof)
    ensures ClassBasesAt(ts, i) == Got(bases, j) <==> IsClassBases(ts, i, j, bases)
  {
    if Tok(ts, i, Colon) { BasesIff(ts, i + 1, j, bases); }
  }

  lemma {:induction false} ClassBodyIff(ts: seq<Token>, i: nat, j: nat, isSealed: bool, c: ClassDecl)
    requires ts != [] && ts[|ts| - 1].Is(Eof)
    ensures ClassBodyAt(ts, i, isSealed) == Got((c.members, c.subclasses), j) <==> IsClassBody(ts, i, j, isSealed, c)
    decreases |ts| - i, 0
  {
    if isSealed && Tok(ts, i, LBrace) && Tok(ts, i + 1, Class) {
      SealedStep(ts, i, j, c.members, c.subclasses);
      SubclassesIff(ts, i + 1, j, c.subclasses);
    } else {
      PlainBodyIff(ts, i, j, isSealed, c);
    }
  }

  lemma PlainBodyIff(ts: seq<Token>, i: nat, j: nat, isSealed: bool, c: ClassDecl)
    requires !(isSealed && Tok(ts, i, LBrace) && Tok(ts, i + 1, Class))
    ensures ClassBodyAt(ts, i, isSealed) == Got((c.members, c.subclasses), j) <==> IsClassBody(ts, i, j, isSealed, c)
  {
    PlainStep(ts, i, j, isSealed, c.members, c.subclasses);
    FnsIff(ts, i, j, c.members);
  }

  lemma FnsIff(ts: seq<Token>, i: nat, j: nat, members: seq<FnDecl>)
    ensures ClassFnsAt(ts, i) == Got(members, j) <==> IsFns(ts, i, j, members)
  {
    if Tok(ts, i, LBrace) {
      ClassMembersAgree(ts, i + 1);
      MembersIff(ts, i + 1, j, members);
    }
  }

  lemma SealedStep(ts: seq<Token>, i: nat, j: nat, members: seq<FnDecl>, cs: seq<ClassDecl>)
    requires Tok(ts, i, LBrace) && Tok(ts, i + 1, Class)
    ensures ClassBodyAt(ts, i, true) == Got((members, cs), j) <==>
      members == [] && SubclassesAt(ts, i + 1) == Got(cs, j)
  {
  }

  lemma PlainStep(ts: seq<Token>, i: nat, j: nat, isSealed: bool, members: seq<FnDecl>, cs: seq<ClassDecl>)
    requires !(isSealed && Tok(ts, i, LBrace) && Tok(ts, i + 1, Class))
    ensures ClassBodyAt(ts, i, isSealed) == Got((members, cs), j) <==> cs == [] && ClassFnsAt(ts, i) == Got(members, j)
  {
  }

  lemma {:induction false} SubclassesIff(ts: seq<Token>, i: nat, j: nat, cs: seq<ClassDecl>)
    requires ts != [] && ts[|ts| - 1].Is(Eof)
    ensures SubclassesAt(ts, i) == Got(cs, j) <==> IsSubclasses(ts, i, j, cs)
    decreases |ts| - i, 2
  {
    if cs != [] {
      if IsSubclasses(ts, i, j, cs) {
        var m := FirstSubclass(ts, i, j, cs);
        ClassIff(ts, i + 1, m, false, false, cs[0]);
        SubclassesIff(ts, m, j, cs[1..]);
        SubclassesFound(ts, i, m, j, cs);
      }
      if SubclassesAt(ts, i) == Got(cs, j) {
        var m := SubclassesParts(ts, i, j, cs);
        ClassIff(ts, i + 1, m, false, false, cs[0]);
        SubclassesIff(ts, m, j, cs[1..]);
      }
    }
  }

  lemma FirstSubclass(ts: seq<Token>, i: nat, j: nat, cs: seq<ClassDecl>) returns (m: nat)
    requires cs != [] && IsSubclasses(ts, i, j, cs)
    ensures Tok(ts, i, Class) && i < m && IsClass(ts, i + 1, m, false, false, cs[0]) && IsSubclasses(ts, m, j, cs[1..])
  {
    m :| i < m && IsClass(ts, i + 1, m, false, false, cs[0]) && IsSubclasses(ts, m, j, cs[1..]);
  }

  lemma SubclassesFound(ts: seq<Token>, i: nat, m: nat, j: nat, cs: seq<ClassDecl>)
    requires cs != [] && Tok(ts, i, Class)
    requires ClassAt(ts, i + 1, false, false) == Got(cs[0], m) && SubclassesAt(ts, m) == Got(cs[1..], j)
    ensures SubclassesAt(ts, i) == Got(cs, j)
  {
    assert [cs[0]] + cs[1..] == cs;
  }

  lemma SubclassesParts(ts: seq<Token>, i: nat, j: nat, cs: seq<ClassDecl>) returns (m: nat)
    requires cs != [] && SubclassesAt(ts, i) == Got(cs, j)
    ensures i < m && Tok(ts, i, Class)
    ensures ClassAt(ts, i + 1, false, false) == Got(cs[0], m) && SubclassesAt(ts, m) == Got(cs[1..], j)
  {
    m := ClassAt(ts, i + 1, false, false).next;
  }

  lemma {:induction false} ClassIff(ts: seq<Token>, i: nat, j: nat, isData: bool, isSealed: bool, c: ClassDecl)
    requires ts != [] && ts[|ts| - 1].Is(Eof)
    ensures ClassAt(ts, i, isData, isSealed) == Got(c, j) <==> IsClass(ts, i, j, isData, isSealed, c)
    decreases |ts| - i, 1
  {
    if IsClass(ts, i, j, isData, isSealed, c) {
      var m, n := ClassHead(ts, i, j, isData, isSealed, c);
      ClassParamsIff(ts, i + 1, m, c.params);
      ClassBasesIff(ts, m, n, c.bases);
      ClassBodyIff(ts, n, j, isSealed, c);
      ClassFound(ts, i, m, n, j, isData, isSealed, c);
    }
    if ClassAt(ts, i, isData, isSealed) == Got(c, j) {
      var m, n := ClassParts(ts, i, j, isData, isSealed, c);
      ClassParamsIff(ts, i + 1, m, c.params);
      ClassBasesIff(ts, m, n, c.bases);
      ClassBodyIff(ts, n, j, isSealed, c);
    }
  }

  lemma ClassHead(ts: seq<Token>, i: nat, j: nat, isData: bool, isSealed: bool, c: ClassDecl)
    returns (m: nat, n: nat)
    requires IsClass(ts, i, j, isData, isSealed, c)
    ensures c.isData == isData && c.isSealed == isSealed && Name(ts, i, c.name) && i < m <= n
    ensures IsClassParams(ts, i + 1, m, c.params) && IsClassBases(ts, m, n, c.bases)
      && IsClassBody(ts, n, j, isSealed, c)
  {
    m, n :|
      && i < m <= n && IsClassParams(ts, i + 1, m, c.params) && IsClassBases(ts, m, n, c.bases)
      && IsClassBody(ts, n, j, isSealed, c);
  }

  lemma ClassFound(ts: seq<Token>, i: nat, m: nat, n: nat, j: nat, isData: bool, isSealed: bool, c: ClassDecl)
    requires c.isData == isData && c.isSealed == isSealed && Name(ts, i, c.name)
    requires ClassParamsAt(ts, i + 1) == Got(c.params, m) && ClassBasesAt(ts, m) == Got(c.bases, n)
    requires ClassBodyAt(ts, n, isSealed) == Got((c.members, c.subclasses), j)
    ensures ClassAt(ts, i, isData, isSealed) == Got(c, j)
  {
  }

  lemma ClassParts(ts: seq<Token>, i: nat, j: nat, isData: bool, isSealed: bool, c: ClassDecl)
    returns (m: nat, n: nat)
    requires ClassAt(ts, i, isData, isSealed) == Got(c, j)
    ensures c.isData == isData && c.isSealed == isSealed && Name(ts, i, c.name) && i < m <= n
    ensures ClassParamsAt(ts, i + 1) == Got(c.params, m) && ClassBasesAt(ts, m) == Got(c.bases, n)
    ensures ClassBodyAt(ts, n, isSealed) == Got((c.members, c.subclasses), j)
  {
    m := ClassParamsAt(ts, i + 1).next;
    n := ClassBasesAt(ts, m).next;
  }

  // ----------------------------------------------------------- declarations

  lemma {:induction false} ExternFnsIff(ts: seq<Token>, i: nat, j: nat, fns: seq<ExternFn>)
    ensures ExternFnsAt(ts, i) == Got(fns, j) <==> IsExternFns(ts, i, j, fns)
    decreases |fns|
  {
    if fns != [] {
      if IsExternFns(ts, i, j, fns) {
        var m := FirstExtern(ts, i, j, fns);
        SignatureIff(ts, i + 2, m, fns[0].params, fns[0].returnType);
        ExternFnsIff(ts, m, j, fns[1..]);
        ExternFnsFound(ts, i, m, j, fns);
      }
      if ExternFnsAt(ts, i) == Got(fns, j) { ExternFnsRight(ts, i, j, fns); }
    }
  }

  lemma {:induction false} ExternFnsRight(ts: seq<Token>, i: nat, j: nat, fns: seq<ExternFn>)
    requires fns != [] && ExternFnsAt(ts, i) == Got(fns, j)
    ensures IsExternFns(ts, i, j, fns)
    decreases |fns|, 0
  {
    hide *;
    var m := ExternFnsParts(ts, i, j, fns);
    SignatureIff(ts, i + 2, m, fns[0].params, fns[0].returnType);
    ExternFnsIff(ts, m, j, fns[1..]);
    ExternFnsMade(ts, i, m, j, fns);
  }

  lemma ExternFnsMade(ts: seq<Token>, i: nat, m: nat, j: nat, fns: seq<ExternFn>)
    requires fns != [] && Tok(ts, i, Fn) && Name(ts, i + 1, fns[0].name)
    requires IsSignature(ts, i + 2, m, fns[0].params, fns[0].returnType) && IsExternFns(ts, m, j, fns[1..])
    ensures IsExternFns(ts, i, j, fns)
  {
    hide IsSignature, SignatureAt;
  }

  lemma FirstExtern(ts: seq<Token>, i: nat, j: nat, fns: seq<ExternFn>) returns (m: nat)
    requires fns != [] && IsExternFns(ts, i, j, fns)
    ensures Tok(ts, i, Fn) && Name(ts, i + 1, fns[0].name)
    ensures IsSignature(ts, i + 2, m, fns[0].params, fns[0].returnType) && IsExternFns(ts, m, j, fns[1..])
  {
    m :| IsSignature(ts, i + 2, m, fns[0].params, fns[0].returnType) && IsExternFns(ts, m, j, fns[1..]);
  }

  lemma ExternFnsFound(ts: seq<Token>, i: nat, m: nat, j: nat, fns: seq<ExternFn>)
    requires fns != [] && Tok(ts, i, Fn) && Name(ts, i + 1, fns[0].name)
    requires SignatureAt(ts, i + 2) == Got((fns[0].params, fns[0].returnType), m)
      && ExternFnsAt(ts, m) == Got(fns[1..], j)
    ensures ExternFnsAt(ts, i) == Got(fns, j)
  {
    ExternFnsStep(ts, i, m, j, fns[0], fns[1..]);
    assert [fns[0]] + fns[1..] == fns;
  }

  lemma ExternFnsStep(ts: seq<Token>, i: nat, m: nat, j: nat, f: ExternFn, more: seq<ExternFn>)
    requires Tok(ts, i, Fn) && Name(ts, i + 1, f.name)
    requires SignatureAt(ts, i + 2) == Got((f.params, f.returnType), m) && ExternFnsAt(ts, m) == Got(more, j)
    ensures ExternFnsAt(ts, i) == Got([f] + more, j)
  {
  }

  lemma ExternFnsParts(ts: seq<Token>, i: nat, j: nat, fns: seq<ExternFn>) returns (m: nat)
    requires fns != [] && ExternFnsAt(ts, i) == Got(fns, j)
    ensures Tok(ts, i, Fn) && Name(ts, i + 1, fns[0].name)
    ensures SignatureAt(ts, i + 2) == Got((fns[0].params, fns[0].returnType), m)
      && ExternFnsAt(ts, m) == Got(fns[1..], j)
  {
    m := SignatureAt(ts, i + 2).next;
  }

  lemma ExternIff(ts: seq<Token>, i: nat, j: nat, abi: string, fns: seq<ExternFn>)
    ensures ExternAt(ts, i) == Got(ExternD(abi, fns), j) <==> IsDecl(ts, i, j, ExternD(abi, fns))
  {
    hide ExternFnsAt, IsExternFns;
    ExternFnsIff(ts, if Tok(ts, i + 1, StringLiteral) then i + 3 else i + 2, j, fns);
  }

  lemma InterruptIff(ts: seq<Token>, i: nat, j: nat, s: Stmt)
    ensures InterruptAt(ts, i) == Got(s, j) <==> IsInterrupt(ts, i, j, s)
  {
    if s.UnsafeS? { BlockIff(ts, i + 4, j, s.body); }
  }

  lemma InterfaceIff(ts: seq<Token>, i: nat, j: nat, name: string, methods: seq<FnDecl>)
    ensures InterfaceAt(ts, i) == Got(InterfaceD(name, methods), j) <==> IsDecl(ts, i, j, InterfaceD(name, methods))
  {
    hide MembersAt, IsMembers;
    MembersIff(ts, i + 3, j, methods);
  }

  lemma ObjectIff(ts: seq<Token>, i: nat, j: nat, name: string, members: seq<FnDecl>)
    ensures ObjectAt(ts, i) == Got(ObjectD(name, members), j) <==> IsDecl(ts, i, j, ObjectD(name, members))
  {
    hide MembersAt, IsMembers;
    MembersIff(ts, i + 3, j, members);
  }

  lemma DriverIff(ts: seq<Token>, i: nat, j: nat, name: string, implements: string, members: seq<FnDecl>)
    ensures DriverAt(ts, i) == Got(DriverD(name, implements, members), j) <==>
      IsDecl(ts, i, j, DriverD(name, implements, members))
  {
    hide MembersAt, IsMembers;
    MembersIff(ts, i + 5, j, members);
  }

  /** Which token starts which declaration. */
  predicate DeclStarts(ts: seq<Token>, i: nat, d: Decl) {
    match d
    case ImportD(_) => Tok(ts, i, Import)
    case ExternD(_, _) => Tok(ts, i, Extern)
    case FnD(_) => Tok(ts, i, Fn) || Tok(ts, i, Async) || (Tok(ts, i, Unsafe) && Tok(ts, i + 1, Fn))
    case ClassD(_) => Tok(ts, i, Class) || Tok(ts, i, Data) || Tok(ts, i, Sealed)
    case InterfaceD(_, _) => Tok(ts, i, Interface)
    case ObjectD(_, _) => Tok(ts, i, Object)
    case DriverD(_, _, _) => Tok(ts, i, Driver)
    case StmtD(_) =>
      || Tok(ts, i, Interrupt)
      || (i < |ts| && !DeclKeyword(ts[i].ty) && !(Tok(ts, i, Unsafe) && Tok(ts, i + 1, Fn)))
  }

  lemma DeclRead(ts: seq<Token>, i: nat, j: nat, d: Decl)
    requires DeclAt(ts, i) == Got(d, j)
    ensures DeclStarts(ts, i, d)
  {
    hide ImportAt, ExternAt, FnDeclAt, ClassDeclAt, InterfaceAt, ObjectAt, DriverAt, StmtDeclAt;
  }

  lemma DeclGiven(ts: seq<Token>, i: nat, j: nat, d: Decl)
    requires IsDecl(ts, i, j, d)
    ensures DeclStarts(ts, i, d)
  {
    hide IsExternFns, IsSignature, IsFnBody, IsClass, IsMembers, IsBlock, IsStmt;
  }

  lemma DeclIff(ts: seq<Token>, i: nat, j: nat, d: Decl)
    requires ts != [] && ts[|ts| - 1].Is(Eof)
    ensures DeclAt(ts, i) == Got(d, j) <==> IsDecl(ts, i, j, d)
  {
    hide *;
    if DeclAt(ts, i) == Got(d, j) { DeclRead(ts, i, j, d); }
    if IsDecl(ts, i, j, d) { DeclGiven(ts, i, j, d); }
    if DeclStarts(ts, i, d) {
      DeclDispatch(ts, i, d);
      match d
      case ImportD(name) => ImportIff(ts, i, j, name);
      case ExternD(abi, fns) => ExternIff(ts, i, j, abi, fns);
      case FnD(f) => FnDeclIff(ts, i, j, f);
      case ClassD(c) => ClassDeclIff(ts, i, j, c);
      case InterfaceD(name, methods) => InterfaceIff(ts, i, j, name, methods);
      case ObjectD(name, members) => ObjectIff(ts, i, j, name, members);
      case DriverD(name, implements, members) => DriverIff(ts, i, j, name, implements, members);
      case StmtD(s) => StmtDeclIff(ts, i, j, s);
    }
  }

  lemma DeclDispatch(ts: seq<Token>, i: nat, d: Decl)
    requires DeclStarts(ts, i, d)
    ensures DeclAt(ts, i) == match d
      case ImportD(_) => ImportAt(ts, i)
      case ExternD(_, _) => ExternAt(ts, i)
      case FnD(_) => FnDeclAt(ts, i)
      case ClassD(_) => ClassDeclAt(ts, i)
      case InterfaceD(_, _) => InterfaceAt(ts, i)
      case ObjectD(_, _) => ObjectAt(ts, i)
      case DriverD(_, _, _) => DriverAt(ts, i)
      case StmtD(_) => StmtDeclAt(ts, i)
  {
    hide ImportAt, ExternAt, FnDeclAt, ClassDeclAt, InterfaceAt, ObjectAt, DriverAt, StmtDeclAt;
  }

  lemma ImportIff(ts: seq<Token>, i: nat, j: nat, name: string)
    ensures ImportAt(ts, i) == Got(ImportD(name), j) <==> IsDecl(ts, i, j, ImportD(name))
  {
  }

  lemma FnDeclIff(ts: seq<Token>, i: nat, j: nat, f: FnDecl)
    ensures FnDeclAt(ts, i) == Got(FnD(f), j) <==> IsDecl(ts, i, j, FnD(f))
  {
    hide FnAt, IsFn;
    if Tok(ts, i, Unsafe) { FnIff(ts, i + 1, j, false, true, f); } else { FnIff(ts, i, j, false, false, f); }
  }

  lemma ClassDeclIff(ts: seq<Token>, i: nat, j: nat, c: ClassDecl)
    requires ts != [] && ts[|ts| - 1].Is(Eof)
    ensures ClassDeclAt(ts, i) == Got(ClassD(c), j) <==> IsDecl(ts, i, j, ClassD(c))
  {
    hide ClassAt, IsClass;
    if Tok(ts, i, Data) {
      ClassIff(ts, i + 2, j, true, false, c);
    } else if Tok(ts, i, Sealed) {
      ClassIff(ts, i + 2, j, false, true, c);
    } else {
      ClassIff(ts, i + 1, j, false, false, c);
    }
  }

  lemma StmtDeclIff(ts: seq<Token>, i: nat, j: nat, s: Stmt)
    requires DeclStarts(ts, i, StmtD(s))
    ensures StmtDeclAt(ts, i) == Got(StmtD(s), j) <==> IsDecl(ts, i, j, StmtD(s))
  {
    hide InterruptAt, IsInterrupt, StmtAt, IsStmt;
    if Tok(ts, i, Interrupt) { InterruptIff(ts, i, j, s); } else { StmtIff(ts, i, j, s); }
  }

  /** The parser reads a list of declarations up to the end of input iff the tokens
      are one, and it has one tree only. */
  lemma {:induction false} DeclsIff(ts: seq<Token>, i: nat, ds: seq<Decl>)
    requires ts != [] && ts[|ts| - 1].Is(Eof)
    ensures DeclsAt(ts, i).Got? && DeclsAt(ts, i).value == ds <==> IsDecls(ts, i, ds)
    decreases |ds|
  {
    if ds != [] {
      if IsDecls(ts, i, ds) {
        var m := FirstDecl(ts, i, ds);
        DeclIff(ts, i, m, ds[0]);
        DeclsIff(ts, m, ds[1..]);
        DeclsFound(ts, i, m, ds);
      }
      if DeclsAt(ts, i).Got? && DeclsAt(ts, i).value == ds {
        var m := DeclsParts(ts, i, ds);
        DeclIff(ts, i, m, ds[0]);
        DeclsIff(ts, m, ds[1..]);
      }
    }
  }

  lemma FirstDecl(ts: seq<Token>, i: nat, ds: seq<Decl>) returns (m: nat)
    requires ds != [] && IsDecls(ts, i, ds)
    ensures !Tok(ts, i, Eof) && IsDecl(ts, i, m, ds[0]) && IsDecls(ts, m, ds[1..])
  {
    m :| IsDecl(ts, i, m, ds[0]) && IsDecls(ts, m, ds[1..]);
  }

  lemma DeclsFound(ts: seq<Token>, i: nat, m: nat, ds: seq<Decl>)
    requires ds != [] && !Tok(ts, i, Eof) && DeclAt(ts, i) == Got(ds[0], m)
    requires DeclsAt(ts, m).Got? && DeclsAt(ts, m).value == ds[1..]
    ensures DeclsAt(ts, i).Got? && DeclsAt(ts, i).value == ds
  {
    assert [ds[0]] + ds[1..] == ds;
  }

  lemma DeclsParts(ts: seq<Token>, i: nat, ds: seq<Decl>) returns (m: nat)
    requires ds != [] && DeclsAt(ts, i).Got? && DeclsAt(ts, i).value == ds
    ensures !Tok(ts, i, Eof) && DeclAt(ts, i) == Got(ds[0], m)
    ensures DeclsAt(ts, m).Got? && DeclsAt(ts, m).value == ds[1..]
  {
    m := DeclAt(ts, i).next;
  }
}
