/**
 * The parts of the content document (`assets/data.json`) that the modelled code
 * reads. A field the document may omit is an `Option`; a string field that
 * JavaScript tests for truthiness is present only when it is non-empty.
 */
module SiteData {
  import opened Wrappers

  datatype Home = Home(name: string, image: Option<string>)

  datatype About = About(bio: string, image: Option<string>)

  datatype Project = Project(title: string, description: string, image: Option<string>)

  datatype Certificate = Certificate(title: string, issuer: string, link: Option<string>)

  datatype Content = Content(
    home: Option<Home>,
    about: Option<About>,
    projects: Option<seq<Project>>,
    certificates: Option<seq<Certificate>>)

  /** JavaScript truthiness of an optional string field: present and non-empty. */
  predicate Truthy(field: Option<string>)
  {
    field.Some? && field.value != ""
  }
}
