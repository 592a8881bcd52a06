/**
  The text sent on submit: a fixed greeting, then twelve numbered sections,
  each a bold label on one line and the field value, verbatim, on the next,
  the sections separated by blank lines.
 */
module Message {
  import opened JsString
  import opened Types

  const Greeting: string :=
    "Olá, realizei a assinatura da minha estrutura e preenchi o formulário. Aqui estão os resultados:"

  /** Line feed, the line break of the template. */
  const LF: CodeUnit := 0x0A

  /** One section: its label and the field value shown under it. */
  datatype Section = Section(heading: string, value: JSString)

  /** The bold labels in template order; item 11's ends in '?' and has no colon. */
  const Labels: seq<string> := [
    "*1. Nome da Empresa:*",
    "*2. Segmento:*",
    "*3. Cidade/Estado:*",
    "*4. Tipo de Atendimento:*",
    "*5. WhatsApp:*",
    "*6. E-mail:*",
    "*7. Horário:*",
    "*8. O que faz (1 frase):*",
    "*9. Principais Serviços:*",
    "*10. Diferencial:*",
    "*11. Possui Logotipo?*",
    "*12. Cores Preferidas:*"]

  /** The twelve sections in template order: label k over the k-th field of FormData. */
  function Sections(d: FormData): (secs: seq<Section>)
    ensures |secs| == |AllFields| == 12
  {
    seq(12, k requires 0 <= k < 12 => Section(Labels[k], Get(d, AllFields[k])))
  }

  /** A blank line, the label, a line break, then the value. */
  function Block(s: Section): JSString {
    [LF, LF] + Str(s.heading) + [LF] + s.value
  }

  function Render(secs: seq<Section>): JSString {
    if secs == [] then [] else Block(secs[0]) + Render(secs[1..])
  }

  /** The composed message (the template literal of the submit handler). */
  function Compose(d: FormData): JSString {
    Str(Greeting) + Render(Sections(d))
  }

  /** Rendering distributes over concatenation of section lists. */
  lemma {:induction false} RenderConcat(a: seq<Section>, b: seq<Section>)
    ensures Render(a + b) == Render(a) + Render(b)
  {
    if a == [] {
      assert a + b == b;
    } else {
      assert (a + b)[1..] == a[1..] + b;
      RenderConcat(a[1..], b);
      assert Render(a + b) == Block(a[0]) + (Render(a[1..]) + Render(b));
    }
  }

  lemma RenderSplit(secs: seq<Section>, k: nat)
    requires k < |secs|
    ensures Render(secs) == Render(secs[..k]) + (Block(secs[k]) + Render(secs[k + 1..]))
  {
    assert secs == secs[..k] + secs[k..];
    RenderConcat(secs[..k], secs[k..]);
    assert secs[k..][1..] == secs[k + 1..];
  }

  /**
    Section k sits in the message verbatim: whatever the values are, even
    empty ones, the message is the greeting, the sections before k, then
    a blank line, label k, a line break and field k's value, then the
    sections after k.
   */
  lemma ComposeSection(d: FormData, k: nat)
    requires k < 12
    ensures Compose(d) ==
      Str(Greeting) + Render(Sections(d)[..k]) + Block(Sections(d)[k]) + Render(Sections(d)[k + 1..])
    ensures Block(Sections(d)[k]) == [LF, LF] + Str(Labels[k]) + [LF] + Get(d, AllFields[k])
  {
    var secs := Sections(d);
    RenderSplit(secs, k);
    var g, a, b, c := Str(Greeting), Render(secs[..k]), Block(secs[k]), Render(secs[k + 1..]);
    assert g + (a + (b + c)) == g + a + b + c;
  }

  /** Each field value is preceded by its label and followed by a line break or the end of the message. */
  lemma {:induction false} RenderWellFormed(secs: seq<Section>)
    ensures Render(secs) == [] || Render(secs)[0] == LF
    ensures WellFormed(Render(secs)) <==> forall k :: 0 <= k < |secs| ==> WellFormed(secs[k].value)
  {
    if secs != [] {
      var s := secs[0];
      RenderWellFormed(secs[1..]);
      StrWellFormed(s.heading);
      UnitWellFormed(LF);
      WellFormedConcat([LF], [LF]);
      assert [LF] + [LF] == [LF, LF];
      WellFormedConcat([LF, LF], Str(s.heading));
      WellFormedConcat([LF, LF] + Str(s.heading), [LF]);
      WellFormedConcat([LF, LF] + Str(s.heading) + [LF], s.value);
      WellFormedConcat(Block(s), Render(secs[1..]));
      assert WellFormed(Block(s)) <==> WellFormed(s.value);
      assert WellFormed(Render(secs)) <==> WellFormed(s.value) && WellFormed(Render(secs[1..]));
      if forall k :: 0 <= k < |secs| ==> WellFormed(secs[k].value) {
        assert forall k :: 0 <= k < |secs| - 1 ==> secs[1..][k] == secs[k + 1];
      }
      if WellFormed(Render(secs)) {
        forall k | 0 <= k < |secs| ensures WellFormed(secs[k].value) {
          if k > 0 {
            assert secs[k] == secs[1..][k - 1];
          }
        }
      }
    }
  }

  /**
    The message has no unpaired surrogate exactly when no field has one,
    so whether it can be URI-encoded depends on the field values alone.
   */
  lemma ComposeWellFormed(d: FormData)
    ensures WellFormed(Compose(d)) <==> forall f :: WellFormed(Get(d, f))
  {
    var secs := Sections(d);
    RenderWellFormed(secs);
    StrWellFormed(Greeting);
    WellFormedConcat(Str(Greeting), Render(secs));
    assert WellFormed(Compose(d)) <==> WellFormed(Render(secs));
    if WellFormed(Compose(d)) {
      forall f ensures WellFormed(Get(d, f)) {
        assert secs[Position(f)].value == Get(d, f);
      }
    }
    if forall f :: WellFormed(Get(d, f)) {
      forall k | 0 <= k < |secs| ensures WellFormed(secs[k].value) {
        assert secs[k].value == Get(d, AllFields[k]);
      }
    }
  }
}
