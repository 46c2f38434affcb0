/**
 * The three prompt builders: each is a fixed text, the argument inserted
 * verbatim (no escaping), then another fixed text.
 */
module Prompts {

  /** A prompt template: the text before the argument and the text after it. */
  datatype Template = Template(head: string, tail: string)

  /** The f-string of a template with `arg` in the hole. */
  function Fill(t: Template, arg: string): string
  {
    t.head + arg + t.tail
  }

  /** The argument read back out of a filled prompt. */
  function Hole(t: Template, prompt: string): string
    requires |t.head| + |t.tail| <= |prompt|
  {
    prompt[|t.head| .. |prompt| - |t.tail|]
  }

  /** The generation prompt's opening lines, up to its `TEXT:` line. */
  function GenerationIntro(): string
  {
    "\n" +
    "You are an ontology engineer. Convert the following text into an OWL ontology fragment using Turtle syntax.\n" +
    "\n"
  }

  const GenerationMarker := "TEXT:\n\""
  const GenerationHead := GenerationIntro() + GenerationMarker

  /** The closing quote, then the instructions. */
  const GenerationTail := "\"" + GenerationInstructions()

  /** The instructions and the example after the chunk. */
  function GenerationInstructions(): string
  {
    "\n" +
    "\n" +
    "TASK:\n" +
    "Your task is to generate a turtle fragment that represents the concepts, relationships, and properties described in the text. Ensure that the fragment is consistent with the current ontology.\n" +
    "Make sure to use appropriate prefixes and URIs for the ontology elements. The fragment should be valid Turtle syntax and should not include any extraneous information.\n" +
    "Return only the Turtle fragment without any additional explanations or comments. directly return the Turtle fragment as a string. do not use any markers like ```turtle or ```json etc.\n" +
    "\n" +
    "make sure there are no syntax errors in output. here is an example ontology for reference:\n" +
    "@prefix ns1: <http://example.org/ontology#> .\n" +
    "@prefix rdf: <http://www.w3.org/1999/02/22-rdf-syntax-ns#> .\n" +
    "@prefix rdfs: <http://www.w3.org/2000/01/rdf-schema#> .\n" +
    "@prefix xsd: <http://www.w3.org/2001/XMLSchema#> .\n" +
    "\n" +
    "ns1:Person a rdfs:Class .\n" +
    "ns1:Doctor a rdfs:Class .\n" +
    "ns1:hasDoctor a rdf:Property ;\n" +
    "    rdfs:domain ns1:Person ;\n" +
    "    rdfs:range ns1:Doctor .\n" +
    "\n" +
    "ns1:hasName a rdf:Property ;\n" +
    "    rdfs:domain ns1:Person ;\n" +
    "    rdfs:range xsd:string .\n" +
    "\n" +
    "IMPORTANT  Common Mistakes to Avoid:\n" +
    "1. Vocabulary:\n" +
    "   - Do NOT create duplicate classes or properties with slightly different names (e.g., Doctor vs Doctors).\n" +
    "   - Use consistent naming style (PascalCase for classes, camelCase for properties).\n" +
    "   - Avoid overly generic names like Entity, Object, or Thing.\n" +
    "\n" +
    "2. Structure:\n" +
    "   - Always define @prefix declarations for all namespaces you use.\n" +
    "   - Ensure domains and ranges are logically correct (e.g., hasName should apply to a Person, not a Treatment).\n" +
    "   - Use owl:ObjectProperty for links between entities; use owl:DatatypeProperty for literal values.\n" +
    "   - Do NOT declare individuals as classes or classes as individuals.\n" +
    "\n" +
    "3. Semantics:\n" +
    "   - Maintain correct class hierarchies; avoid illogical subclass relationships.\n" +
    "   - Avoid contradictory axioms (e.g., a class cannot be both equivalent and disjoint).\n" +
    "   - Add labels and rdfs:comment to make ontology human-readable.\n" +
    "\n" +
    "4. Syntax:\n" +
    "   - Ensure valid Turtle syntax (proper periods, no dangling triples).\n" +
    "   - URIs must be valid (no spaces or illegal characters).\n" +
    "   - Do not reference undefined classes or properties.\n" +
    "\n" +
    "5. Scope:\n" +
    "   - Only model concepts clearly described in the input text.\n" +
    "   - Avoid over-generalizing or adding unrelated concepts.\n" +
    "\n"
  }

  /** The validation prompt's opening lines, up to the indentation of its `ONTOLOGY:` line. */
  function ValidationIntro(): string
  {
    "\n" +
    "        You are an ontology validator. Review the following OWL ontology in Turtle format.\n" +
    "\n" +
    "        TASK:\n" +
    "        1. Fix any syntax errors so it is valid Turtle.\n" +
    "        2. Merge duplicate classes or properties with different names but identical meaning.\n" +
    "        3. Ensure consistent naming (PascalCase for classes, camelCase for properties).\n" +
    "        4. Remove any undefined references.\n" +
    "        5. Ensure all object properties have correct domain/range.\n" +
    "        6. Do not add any new classes or properties that are not present in the original ontology.\n" +
    "\n" +
    "        Return ONLY the corrected Turtle format. Do not add explanations or comments. directly return the Turtle fragment as a string. do not use any markers like ```turtle or ```json etc.\n" +
    "\n" +
    "        "
  }

  const ValidationMarker := "ONTOLOGY:\n        "
  const ValidationHead := ValidationIntro() + ValidationMarker

  const ValidationTail := "\n    "

  /** The repair prompt's opening lines, up to the indentation of its `FRAGMENT:` line. */
  function RepairIntro(): string
  {
    "\n" +
    "        You are an expert in OWL ontologies and Turtle syntax.\n" +
    "        The following Turtle fragment has syntax errors that prevent parsing.\n" +
    "\n" +
    "        TASK:\n" +
    "        - Fix the syntax so it is valid Turtle.\n" +
    "        - Keep all triples exactly the same unless fixing syntax errors.\n" +
    "        - Do not add any unrelated content.\n" +
    "        - Do not change the ontology semantics.\n" +
    "        - Use proper prefixes.\n" +
    "        - Return only the fixed Turtle fragment, no explanations or formatting.\n" +
    "\n" +
    "        Return ONLY the corrected Turtle format. Do not add explanations or comments. directly return the Turtle fragment as a string. do not use any markers like ```turtle or ```json etc.\n" +
    "\n" +
    "        "
  }

  const RepairMarker := "FRAGMENT:\n        "
  const RepairHead := RepairIntro() + RepairMarker

  const RepairTail := "\n    "

  const GenerationTemplate := Template(GenerationHead, GenerationTail)
  const ValidationTemplate := Template(ValidationHead, ValidationTail)
  const RepairTemplate := Template(RepairHead, RepairTail)

  /**
   * `p` is `intro`, then the marker line `marker`, then `arg` verbatim, then
   * `tail`, and nothing else.
   */
  predicate Filled(p: string, intro: string, marker: string, arg: string, tail: string)
  {
    var i := |intro| + |marker|;
    && |p| == i + |arg| + |tail|
    && p[..|intro|] == intro
    && p[|intro|..i] == marker
    && p[i..i + |arg|] == arg
    && p[i + |arg|..] == tail
  }

  /**
   * `build_generation_prompt(text_chunk)`: the fixed opening, the `TEXT:` line
   * ending in an opening quote, the chunk verbatim, then the closing quote and
   * the instructions; so the chunk is the prompt less the fixed text on
   * either side.
   */
  function GenerationPrompt(chunk: string): (r: string)
    ensures Filled(r, GenerationIntro(), GenerationMarker, chunk, GenerationTail)
  {
    FillMarked(GenerationIntro(), GenerationMarker, GenerationTail, chunk);
    Fill(GenerationTemplate, chunk)
  }

  /**
   * `build_validation_prompt(ontology)`: the fixed task list, the `ONTOLOGY:`
   * line and its indentation, the ontology verbatim, then a newline and four
   * spaces; so the ontology is the prompt less the fixed text on either side.
   */
  function ValidationPrompt(ontology: string): (r: string)
    ensures Filled(r, ValidationIntro(), ValidationMarker, ontology, ValidationTail)
  {
    FillMarked(ValidationIntro(), ValidationMarker, ValidationTail, ontology);
    Fill(ValidationTemplate, ontology)
  }

  /**
   * `build_repair_fragment_prompt(turtle_str)`: the fixed task list, the
   * `FRAGMENT:` line and its indentation, the fragment verbatim, then a
   * newline and four spaces; so the fragment is the prompt less the
   * fixed text on either side.
   */
  function RepairPrompt(fragment: string): (r: string)
    ensures Filled(r, RepairIntro(), RepairMarker, fragment, RepairTail)
  {
    FillMarked(RepairIntro(), RepairMarker, RepairTail, fragment);
    Fill(RepairTemplate, fragment)
  }

  /**
   * A filled prompt is as long as its fixed text plus the argument, begins and
   * ends with the same fixed text whatever the argument, and gives the argument
   * back unchanged (quotes and all) from its hole.
   */
  lemma FillShape(t: Template, arg: string)
    ensures |Fill(t, arg)| == |t.head| + |t.tail| + |arg|
    ensures Fill(t, arg)[..|t.head|] == t.head
    ensures Fill(t, arg)[|t.head| + |arg|..] == t.tail
    ensures Hole(t, Fill(t, arg)) == arg
  {
    var p := Fill(t, arg);
    assert p == t.head + arg + t.tail;
    assert p[..|t.head|] == t.head;
    assert p[|t.head| + |arg|..] == t.tail;
    assert p[|t.head| .. |p| - |t.tail|] == arg;
  }

  /** Two arguments give the same prompt only if they are the same argument. */
  lemma FillInjective(t: Template, a: string, b: string)
    requires Fill(t, a) == Fill(t, b)
    ensures a == b
  {
    FillShape(t, a);
    FillShape(t, b);
  }

  /**
   * In a template whose head ends with a marker line, the prompt is the
   * opening text, the marker, the argument verbatim and the tail, in that order.
   */
  lemma FillMarked(intro: string, marker: string, tail: string, arg: string)
    ensures Filled(Fill(Template(intro + marker, tail), arg), intro, marker, arg, tail)
  {
    var p := Fill(Template(intro + marker, tail), arg);
    var i := |intro| + |marker|;
    assert p == intro + marker + arg + tail;
    assert p[..|intro|] == intro;
    assert p[|intro| .. i] == marker;
    assert p[i .. i + |arg|] == arg;
    assert p[i + |arg|..] == tail;
  }

  /** The generation prompt puts the chunk between double quotes straight after its `TEXT:` line. */
  lemma GenerationTemplateMarks()
    ensures GenerationTemplate == Template(GenerationIntro() + "TEXT:\n\"", "\"" + GenerationInstructions())
  {
  }

  /** The validation prompt puts the ontology straight after its `ONTOLOGY:` line and indentation. */
  lemma ValidationTemplateMarks()
    ensures ValidationTemplate == Template(ValidationIntro() + "ONTOLOGY:\n        ", "\n    ")
  {
  }

  /** The repair prompt puts the broken fragment straight after its `FRAGMENT:` line and indentation. */
  lemma RepairTemplateMarks()
    ensures RepairTemplate == Template(RepairIntro() + "FRAGMENT:\n        ", "\n    ")
  {
  }
}
